/** The device plugins created from the index: what each advertises, under which name and socket, which paths its
    health check watches, and how all of it agrees with the generated CDI specs and with allocation. */
module Publishing {
  import opened Allocation
  import opened Cdi
  import opened Discovery
  import opened Generation
  import opened GenerationProperties
  import opened Naming
  import opened Protocol
  import opened Sequences
  import opened Text

  const DEVICE_NAMESPACE := "nvidia.com"
  const CDI_VENDOR := "nvidia.com"
  const SOCKET_PREFIX := "/var/lib/kubelet/device-plugins/sandbox-"
  const SOCKET_SUFFIX := ".sock"

  function ResourceName(deviceName: string): string {
    DEVICE_NAMESPACE + "/" + deviceName
  }

  function Kind(class_: string): string {
    CDI_VENDOR + "/" + class_
  }

  function SocketPath(deviceName: string): string {
    SOCKET_PREFIX + deviceName + SOCKET_SUFFIX
  }

  /** Resource and kind are a vendor and a name. */
  lemma ResourceParts(name: string)
    requires '/' !in name
    ensures Split(ResourceName(name), '/') == ["nvidia.com", name] == Split(Kind(name), '/')
  {
    SplitWithout("nvidia.com", '/');
    SplitWithout(name, '/');
    SplitAfter("nvidia.com", '/', name);
    assert "nvidia.com" + "/" + name == "nvidia.com" + ['/'] + name;
  }

  /** The parameters of NewGenericDevicePlugin and what follows from them. */
  datatype PluginSpec = PluginSpec(deviceName: string, socketPath: string, deviceDir: Path, devs: seq<Dev>)

  /** Every key is advertised as a healthy device. */
  function Advertise(keys: seq<string>): (devs: seq<Dev>)
    ensures |devs| == |keys| && forall i | 0 <= i < |keys| :: devs[i] == Dev(keys[i], true)
  {
    if keys == [] then [] else Advertise(keys[..|keys| - 1]) + [Dev(keys[|keys| - 1], true)]
  }

  function DeviceDir(fd: bool): Path {
    if fd then VFIO_DEVICES_DIR else VFIO_DIR
  }

  function PluginFor(ix: Index, fd: bool, aliases: Aliases, lookups: Lookups, id: string): PluginSpec
    requires id in ix.deviceMap
  {
    var name := PublishedName(ix, aliases, lookups(id), id);
    PluginSpec(name, SocketPath(name), DeviceDir(fd), Advertise(ix.deviceMap[id]))
  }

  /** The plugins whose Start succeeds, in order of creation. */
  function Started(starts: PluginSpec -> bool, created: seq<PluginSpec>): seq<PluginSpec> {
    if created == [] then [] else
      var last := created[|created| - 1];
      Started(starts, created[..|created| - 1]) + if starts(last) then [last] else []
  }

  lemma {:induction false} StartedExactly(starts: PluginSpec -> bool, created: seq<PluginSpec>, p: PluginSpec)
    ensures p in Started(starts, created) <==> p in created && starts(p)
  {
    if created != [] {
      StartedExactly(starts, created[..|created| - 1], p);
      assert p in created <==> p in created[..|created| - 1] || p == created[|created| - 1];
    }
  }

  // ---------------------------------------------------------------- creating the plugins

  lemma StartedSnoc(starts: PluginSpec -> bool, created: seq<PluginSpec>, p: PluginSpec)
    ensures Started(starts, created + [p]) == Started(starts, created) + if starts(p) then [p] else []
  {
    assert (created + [p])[..|created|] == created;
  }

  method AdvertiseKeys(keys: seq<string>) returns (devs: seq<Dev>)
    ensures devs == Advertise(keys)
  {
    devs := [];
    for i := 0 to |keys|
      invariant devs == Advertise(keys[..i])
    {
      devs := devs + [Dev(keys[i], true)];
      assert keys[..i + 1][..i] == keys[..i];
    }
    assert keys[..|keys|] == keys;
  }

  /** One plugin an id, over one iteration of deviceMap; those that start are the controller's to stop. */
  method CreateDevicePlugins(ix: Index, probe: Result<bool, string>, aliases: Aliases, order: seq<string>,
                             lookups: Lookups, starts: PluginSpec -> bool)
    returns (created: seq<PluginSpec>, controlled: seq<PluginSpec>)
    requires IterationOf(order, ix.deviceMap.Keys)
    ensures probe.Err? ==> created == [] && controlled == []
    ensures probe.Ok? ==>
              && |created| == |order|
              && forall n | 0 <= n < |order| :: created[n] == PluginFor(ix, probe.value, aliases, lookups, order[n])
    ensures controlled == Started(starts, created)
  {
    created, controlled := [], [];
    if probe.Err? {
      return;
    }
    for n := 0 to |order|
      invariant |created| == n
      invariant forall i | 0 <= i < n ::
                  order[i] in ix.deviceMap && created[i] == PluginFor(ix, probe.value, aliases, lookups, order[i])
      invariant controlled == Started(starts, created)
    {
      var deviceID := order[n];
      assert deviceID in order;
      var devs := AdvertiseKeys(ix.deviceMap[deviceID]);
      var name := PublishedName(ix, aliases, lookups(deviceID), deviceID);
      var plugin := PluginSpec(name, SocketPath(name), DeviceDir(probe.value), devs);
      StartedSnoc(starts, created, plugin);
      created := created + [plugin];
      if starts(plugin) {
        controlled := controlled + [plugin];
      }
    }
  }

  /** Every discovered key is advertised by exactly one plugin, once. */
  lemma AdvertisedOnce(ix: Index, fd: bool, aliases: Aliases, order: seq<string>, lookups: Lookups, k: string)
    returns (n: nat, i: nat)
    requires Partitioned(ix) && IterationOf(order, ix.deviceMap.Keys) && k in ix.iommuMap
    ensures n < |order| && order[n] in ix.deviceMap && i < |PluginFor(ix, fd, aliases, lookups, order[n]).devs|
    ensures PluginFor(ix, fd, aliases, lookups, order[n]).devs[i].id == k
    ensures forall n', i' | 0 <= n' < |order| && order[n'] in ix.deviceMap
            && 0 <= i' < |PluginFor(ix, fd, aliases, lookups, order[n']).devs|
                            && PluginFor(ix, fd, aliases, lookups, order[n']).devs[i'].id == k :: n' == n && i' == i
  {
    var id :| Lists(ix, id, k);
    assert id in order;
    n :| 0 <= n < |order| && order[n] == id;
    i :| 0 <= i < |ix.deviceMap[id]| && ix.deviceMap[id][i] == k;
    forall n', i' | 0 <= n' < |order| && order[n'] in ix.deviceMap
           && 0 <= i' < |PluginFor(ix, fd, aliases, lookups, order[n']).devs|
                    && PluginFor(ix, fd, aliases, lookups, order[n']).devs[i'].id == k
      ensures n' == n && i' == i {
      assert ix.deviceMap[order[n']][i'] == k;
      assert Lists(ix, order[n'], k);
    }
  }

  // ---------------------------------------------------------------- agreement of names

  lemma CategoryClasses(ix: Index, aliases: Aliases, order: seq<string>, lookups: Lookups, isSwitch: bool, c: string)
    requires Partitioned(ix) && IterationOf(order, ix.deviceMap.Keys)
    ensures HasClass(CategoryJobs(ix, aliases, order, lookups, isSwitch), c)
       <==> exists id | InCategory(ix, id, isSwitch) :: PublishedName(ix, aliases, lookups(id), id) == c
  {
    var jobs := CategoryJobs(ix, aliases, order, lookups, isSwitch);
    if aliases.For(isSwitch) != "" {
      var keys := CategoryKeys(ix, order, isSwitch);
      if keys != [] {
        CategoryMember(ix, order, isSwitch, keys[0]);
        assert jobs[0].class_ == aliases.For(isSwitch);
      }
      forall id | InCategory(ix, id, isSwitch) ensures keys != [] {
        CategoryMember(ix, order, isSwitch, ix.deviceMap[id][0]);
        assert Lists(ix, id, ix.deviceMap[id][0]);
      }
    } else {
      if i :| 0 <= i < |jobs| && jobs[i].class_ == c {
        PerIdJobsMember(ix, order, lookups, isSwitch, jobs[i]);
      }
      if id :| InCategory(ix, id, isSwitch) && PublishedName(ix, aliases, lookups(id), id) == c {
        PerIdJobsMember(ix, order, lookups, isSwitch, JobFor(ix, lookups, id));
        var i :| 0 <= i < |jobs| && jobs[i] == JobFor(ix, lookups, id);
        assert jobs[i].class_ == c;
      }
    }
  }

  /** The classes of the jobs are the published names of the ids. */
  lemma ClassesArePublished(ix: Index, aliases: Aliases, ch: Choices, c: string)
    requires Partitioned(ix) && ValidChoices(ix, ch)
    ensures HasClass(AllJobs(ix, aliases, ch), c)
       <==> exists id | id in ix.deviceMap :: PublishedName(ix, aliases, ch.lookups(id), id) == c
  {
    var gpu := CategoryJobs(ix, aliases, ch.gpuOrder, ch.lookups, false);
    var switch := CategoryJobs(ix, aliases, ch.switchOrder, ch.lookups, true);
    CategoryClasses(ix, aliases, ch.gpuOrder, ch.lookups, false, c);
    CategoryClasses(ix, aliases, ch.switchOrder, ch.lookups, true, c);
    if i :| 0 <= i < |gpu| && gpu[i].class_ == c {
      assert AllJobs(ix, aliases, ch)[i].class_ == c;
    }
    if i :| 0 <= i < |switch| && switch[i].class_ == c {
      assert AllJobs(ix, aliases, ch)[|gpu| + i].class_ == c;
    }
    if i :| 0 <= i < |gpu + switch| && (gpu + switch)[i].class_ == c {
      assert if i < |gpu| then gpu[i].class_ == c else switch[i - |gpu|].class_ == c;
    }
    forall id | id in ix.deviceMap ensures InCategory(ix, id, false) || InCategory(ix, id, true) {}
  }

  /** A completed generation writes a kind exactly when some plugin is created for the resource of that name. */
  lemma KindsAreResources(ix: Index, fd: bool, aliases: Aliases, ch: Choices, library: Library, order: seq<string>,
                          lookups: Lookups, name: string)
    requires Partitioned(ix) && ValidChoices(ix, ch) && NamesSettled(ix, aliases) && ValidLookups(ix, lookups)
    requires IterationOf(order, ix.deviceMap.Keys)
    requires Completes(ix, fd, ch.sort, library, AllJobs(ix, aliases, ch), map[])
    ensures name in Final(ix, fd, ch.sort, library, AllJobs(ix, aliases, ch), map[])
       <==> exists id | id in order && id in ix.deviceMap :: PluginFor(ix, fd, aliases, lookups, id).deviceName == name
    ensures Kind(name) == ResourceName(name)
  {
    AllNothingEmpty(ix, fd, aliases, ch);
    RunTouches(ix, fd, ch.sort, library, AllJobs(ix, aliases, ch), map[], name);
    ClassesArePublished(ix, aliases, ch, name);
    forall id | id in ix.deviceMap
      ensures PluginFor(ix, fd, aliases, lookups, id).deviceName == PublishedName(ix, aliases, ch.lookups(id), id) {
      PublishedNameOrderFree(ix, aliases, lookups, ch.lookups, id);
    }
  }

  // ---------------------------------------------------------------- sockets

  lemma SocketPathInjective(a: string, b: string)
    requires SocketPath(a) == SocketPath(b)
    ensures a == b
  {
    var s, p := SocketPath(a), |SOCKET_PREFIX|;
    assert a == s[p..|s| - |SOCKET_SUFFIX|] && b == s[p..|s| - |SOCKET_SUFFIX|];
  }

  function SocketOf(ix: Index, fd: bool, aliases: Aliases, lookups: Lookups, id: string): string
    requires id in ix.deviceMap
  {
    PluginFor(ix, fd, aliases, lookups, id).socketPath
  }

  ghost predicate SocketsDistinct(ix: Index, fd: bool, aliases: Aliases, order: seq<string>, lookups: Lookups) {
    forall m, n | 0 <= m < n < |order| && order[m] in ix.deviceMap && order[n] in ix.deviceMap ::
      SocketOf(ix, fd, aliases, lookups, order[m]) != SocketOf(ix, fd, aliases, lookups, order[n])
  }

  /** The plugins have pairwise distinct sockets exactly when the choice of name is injective on the ids; so an alias
      over two ids of its category makes two plugins share one. */
  lemma SocketsDistinctIff(ix: Index, fd: bool, aliases: Aliases, order: seq<string>, lookups: Lookups)
    requires IterationOf(order, ix.deviceMap.Keys)
    ensures SocketsDistinct(ix, fd, aliases, order, lookups) <==>
            forall id, id' | id in ix.deviceMap && id' in ix.deviceMap && id != id' ::
              PublishedName(ix, aliases, lookups(id), id) != PublishedName(ix, aliases, lookups(id'), id')
    ensures SocketsDistinct(ix, fd, aliases, order, lookups) ==>
            forall id, id', isSwitch | InCategory(ix, id, isSwitch) && InCategory(ix, id', isSwitch)
                                       && aliases.For(isSwitch) != "" :: id == id'
  {
    if SocketsDistinct(ix, fd, aliases, order, lookups) {
      forall id, id' | id in ix.deviceMap && id' in ix.deviceMap && id != id'
        ensures PublishedName(ix, aliases, lookups(id), id) != PublishedName(ix, aliases, lookups(id'), id') {
        assert id in order && id' in order;
        var m :| 0 <= m < |order| && order[m] == id;
        var n :| 0 <= n < |order| && order[n] == id';
        var a, b := if m < n then m else n, if m < n then n else m;
        assert SocketOf(ix, fd, aliases, lookups, order[a]) != SocketOf(ix, fd, aliases, lookups, order[b]);
      }
    } else {
      var m, n :| 0 <= m < n < |order| && order[m] in ix.deviceMap && order[n] in ix.deviceMap
                  && SocketOf(ix, fd, aliases, lookups, order[m]) == SocketOf(ix, fd, aliases, lookups, order[n]);
      SocketPathInjective(PublishedName(ix, aliases, lookups(order[m]), order[m]),
        PublishedName(ix, aliases, lookups(order[n]), order[n]));
    }
  }

  // ---------------------------------------------------------------- watched paths

  /** The path the health check watches for an id. */
  function WatchPath(dir: Path, fd: bool, id: string): Path {
    Join(dir, if fd then "vfio" + id else id)
  }

  lemma {:induction false} DecimalIsPlain(n: int)
    ensures '/' !in Itoa(n) && Itoa(n) !in ["", ".", ".."]
  {
    var s := if n < 0 then Decimal(-n) else Decimal(n);
    assert forall c | c in s :: IsDigit(c);
    assert IsDigit(s[0]);
    assert Itoa(n)[0] != '.';
  }

  /** Handles are names of directory entries. */
  ghost predicate HandlesAreNames(devs: seq<PciDevice>) {
    forall i | 0 <= i < |devs| :: '/' !in devs[i].iommuFD
  }

  lemma KeyPath(ix: Index, fd: bool, devs: seq<PciDevice>, k: string)
    requires SpecifiedBy(ix, fd, devs) && HandlesAreNames(devs) && k in ix.iommuMap
    ensures WatchPath(DeviceDir(fd), fd, k) == DeviceDir(fd) + [if fd then "vfio" + k else k]
  {
    var i :| 0 <= i < |devs| && HasKey(fd, devs, i, k);
    DecimalIsPlain(devs[i].iommuGroup);
    var name := if fd then "vfio" + k else k;
    assert '/' !in k by {
      if fd && devs[i].iommuFD != "" {
        assert forall c | c in k :: c in devs[i].iommuFD;
      }
    }
    assert fd ==> |name| >= 4;
    JoinName(DeviceDir(fd), name);
  }

  lemma WatchPathInjective(ix: Index, fd: bool, devs: seq<PciDevice>, k: string, k': string)
    requires SpecifiedBy(ix, fd, devs) && HandlesAreNames(devs) && k in ix.iommuMap && k' in ix.iommuMap
    requires WatchPath(DeviceDir(fd), fd, k) == WatchPath(DeviceDir(fd), fd, k')
    ensures k == k'
  {
    KeyPath(ix, fd, devs, k);
    KeyPath(ix, fd, devs, k');
    var name, name' := if fd then "vfio" + k else k, if fd then "vfio" + k' else k';
    assert (DeviceDir(fd) + [name])[|DeviceDir(fd)|] == (DeviceDir(fd) + [name'])[|DeviceDir(fd)|];
    assert fd ==> name[4..] == k && name'[4..] == k';
  }

  /** The map the health check builds: a later device replaces an earlier one at the same path. */
  function PathDeviceMap(dir: Path, fd: bool, devs: seq<Dev>): map<Path, string> {
    if devs == [] then map[] else
      var last := devs[|devs| - 1];
      PathDeviceMap(dir, fd, devs[..|devs| - 1])[WatchPath(dir, fd, last.id) := last.id]
  }

  lemma {:induction false} WatchedPaths(dir: Path, fd: bool, devs: seq<Dev>, p: Path)
    ensures p in PathDeviceMap(dir, fd, devs) <==> exists i | 0 <= i < |devs| :: WatchPath(dir, fd, devs[i].id) == p
    ensures p in PathDeviceMap(dir, fd, devs) ==>
            exists i | 0 <= i < |devs| ::
                     WatchPath(dir, fd, devs[i].id) == p && PathDeviceMap(dir, fd, devs)[p] == devs[i].id
  {
    if devs != [] {
      var n := |devs| - 1;
      WatchedPaths(dir, fd, devs[..n], p);
    }
  }

  /** For a plugin built from discovery the map is a bijection between watched paths and advertised ids. */
  lemma WatchBijection(ix: Index, fd: bool, devs: seq<PciDevice>, id: string)
    requires SpecifiedBy(ix, fd, devs) && HandlesAreNames(devs) && id in ix.deviceMap
    ensures var m := PathDeviceMap(DeviceDir(fd), fd, Advertise(ix.deviceMap[id]));
            && (forall p | p in m :: m[p] in ix.deviceMap[id] && WatchPath(DeviceDir(fd), fd, m[p]) == p)
            && (forall k | k in ix.deviceMap[id] ::
                 WatchPath(DeviceDir(fd), fd, k) in m && m[WatchPath(DeviceDir(fd), fd, k)] == k)
  {
    var keys := ix.deviceMap[id];
    var dir, advertised := DeviceDir(fd), Advertise(keys);
    var m := PathDeviceMap(dir, fd, advertised);
    DiscoveryPartitions(ix, fd, devs);
    forall p | p in m ensures m[p] in keys && WatchPath(dir, fd, m[p]) == p {
      WatchedPaths(dir, fd, advertised, p);
    }
    forall k | k in keys ensures WatchPath(dir, fd, k) in m && m[WatchPath(dir, fd, k)] == k {
      var p := WatchPath(dir, fd, k);
      var i :| 0 <= i < |keys| && keys[i] == k;
      assert advertised[i].id == k;
      WatchedPaths(dir, fd, advertised, p);
      assert Lists(ix, id, k) && Lists(ix, id, m[p]);
      WatchPathInjective(ix, fd, devs, k, m[p]);
    }
  }

  /** With every handle prefixed, the path watched for an id is the one path allocation hands out for it. */
  lemma WatchedIsAllocated(ix: Index, devs: seq<PciDevice>, k: string)
    requires SpecifiedBy(ix, true, devs) && k in ix.iommuMap
    requires forall i | 0 <= i < |devs| && devs[i].Eligible() :: Prefixed(devs[i].iommuFD)
    ensures Grantable(ix.iommuMap, true, k)
    ensures forall n | 0 <= n < |NodesOf(ix.iommuMap, true, k)| ::
              NodesOf(ix.iommuMap, true, k)[n].hostPath == WatchPath(DeviceDir(true), true, k)
  {
    var bucket := ix.iommuMap[k];
    forall n | 0 <= n < |bucket| ensures bucket[n].iommuFD == "vfio" + k {
      assert bucket[n] in bucket;
      BucketMember(true, devs, k, bucket[n]);
      var i :| 0 <= i < |devs| && HasKey(true, devs, i, k) && devs[i].Record() == bucket[n];
      assert devs[i].iommuFD == "vfio" + devs[i].iommuFD[4..];
    }
    forall n | 0 <= n < |bucket|
      ensures NodesOf(ix.iommuMap, true, k)[n].hostPath == WatchPath(DeviceDir(true), true, k) {
      HandleNodesAt(bucket, n);
    }
  }

  /** In legacy mode the path watched for a key is the group's own node, the second that allocation hands out for it. */
  lemma WatchedIsGroupNode(ix: Index, devs: seq<PciDevice>, k: string)
    requires SpecifiedBy(ix, false, devs) && k in ix.iommuMap
    ensures WatchPath(DeviceDir(false), false, k) == ["dev", "vfio", k]
    ensures |NodesOf(ix.iommuMap, false, k)| == 2
    ensures NodesOf(ix.iommuMap, false, k)[1].hostPath == WatchPath(DeviceDir(false), false, k)
  {
    var i :| 0 <= i < |devs| && HasKey(false, devs, i, k);
    DecimalIsPlain(devs[i].iommuGroup);
    VfioPaths(k);
  }
}
