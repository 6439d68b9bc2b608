/** Allocate: from requested ids to the device nodes a container receives. */
module Allocation {
  import opened Discovery
  import opened Sequences
  import opened Text

  const VFIO_DIR: Path := ["dev", "vfio"]
  const VFIO_DEVICES_DIR: Path := ["dev", "vfio", "devices"]

  /** The control node every legacy group needs. */
  const CONTROL_NODE: Path := Join(VFIO_DIR, "vfio")

  datatype DeviceSpec = DeviceSpec(hostPath: Path, containerPath: Path, permissions: string)

  datatype AllocateError = NoIommufdInfo(cause: string) | UnknownId(id: string) | NoHandle(address: string)

  function NodeAt(path: Path): DeviceSpec {
    DeviceSpec(path, path, "mrw")
  }

  // ---------------------------------------------------------------- what a request is entitled to

  /** The id is known and, under IOMMUFD, each of its devices has a handle. */
  predicate Grantable(iommuMap: map<string, seq<NvDevice>>, fd: bool, id: string) {
    id in iommuMap && (fd ==> forall i | 0 <= i < |iommuMap[id]| :: iommuMap[id][i].iommuFD != "")
  }

  function HandleNodes(devices: seq<NvDevice>): (nodes: seq<DeviceSpec>)
    ensures |nodes| == |devices|
  {
    if devices == [] then []
    else HandleNodes(devices[..|devices| - 1]) + [NodeAt(Join(VFIO_DEVICES_DIR, devices[|devices| - 1].iommuFD))]
  }

  /** The nodes one id stands for. */
  function NodesOf(iommuMap: map<string, seq<NvDevice>>, fd: bool, id: string): seq<DeviceSpec>
    requires id in iommuMap
  {
    if fd then HandleNodes(iommuMap[id]) else [NodeAt(CONTROL_NODE), NodeAt(Join(VFIO_DIR, id))]
  }

  function NodesOfAll(iommuMap: map<string, seq<NvDevice>>, fd: bool, ids: seq<string>): seq<DeviceSpec>
    requires forall id | id in ids :: id in iommuMap
  {
    if ids == [] then []
    else NodesOfAll(iommuMap, fd, ids[..|ids| - 1]) + NodesOf(iommuMap, fd, ids[|ids| - 1])
  }

  /** The error says why that id was refused: unknown, or its first device without a handle. */
  ghost predicate Explains(iommuMap: map<string, seq<NvDevice>>, id: string, e: AllocateError) {
    if id !in iommuMap then e == UnknownId(id)
    else exists i | 0 <= i < |iommuMap[id]| ::
      && iommuMap[id][i].iommuFD == "" && e == NoHandle(iommuMap[id][i].address)
      && forall i' | 0 <= i' < i :: iommuMap[id][i'].iommuFD != ""
  }

  predicate GrantableAll(iommuMap: map<string, seq<NvDevice>>, fd: bool, ids: seq<string>) {
    forall j | 0 <= j < |ids| :: Grantable(iommuMap, fd, ids[j])
  }

  /** The first id in request order that cannot be granted is at position j, and the error is about that id. */
  ghost predicate RefusedAt(iommuMap: map<string, seq<NvDevice>>, fd: bool, ids: seq<string>, j: nat,
                            e: AllocateError) {
    j < |ids| && GrantableAll(iommuMap, fd, ids[..j]) && !Grantable(iommuMap, fd, ids[j])
      && Explains(iommuMap, ids[j], e)
  }

  lemma NodesSnoc(iommuMap: map<string, seq<NvDevice>>, fd: bool, ids: seq<string>, id: string)
    requires forall k | k in ids :: k in iommuMap
    requires GrantableAll(iommuMap, fd, ids) && Grantable(iommuMap, fd, id)
    ensures GrantableAll(iommuMap, fd, ids + [id])
    ensures forall k | k in ids + [id] :: k in iommuMap
    ensures NodesOfAll(iommuMap, fd, ids + [id]) == NodesOfAll(iommuMap, fd, ids) + NodesOf(iommuMap, fd, id)
  {
    assert (ids + [id])[..|ids|] == ids;
  }

  lemma HandleNodesSnoc(devices: seq<NvDevice>, dev: NvDevice)
    ensures HandleNodes(devices + [dev]) == HandleNodes(devices) + [NodeAt(Join(VFIO_DEVICES_DIR, dev.iommuFD))]
  {
    assert (devices + [dev])[..|devices|] == devices;
  }

  // ---------------------------------------------------------------- what the nodes are

  /** Every node appears in the container under its host path, readable, writable and creatable. */
  predicate SamePaths(nodes: seq<DeviceSpec>) {
    forall n | 0 <= n < |nodes| :: nodes[n].containerPath == nodes[n].hostPath && nodes[n].permissions == "mrw"
  }

  /** Two nodes an id, in the order of the ids: the control node, and the node of the group. */
  predicate GroupNodes(ids: seq<string>, nodes: seq<DeviceSpec>) {
    && |nodes| == 2 * |ids|
    && forall j | 0 <= j < |ids| ::
         nodes[2 * j].hostPath == ["dev", "vfio", "vfio"]
         && (PlainName(ids[j]) ==> nodes[2 * j + 1].hostPath == ["dev", "vfio", ids[j]])
  }

  function DeviceCount(iommuMap: map<string, seq<NvDevice>>, ids: seq<string>): nat {
    if ids == [] then 0 else
      var last := ids[|ids| - 1];
      DeviceCount(iommuMap, ids[..|ids| - 1]) + if last in iommuMap then |iommuMap[last]| else 0
  }

  predicate DeviceNodeAt(dev: NvDevice, n: nat, nodes: seq<DeviceSpec>) {
    n < |nodes| && (PlainName(dev.iommuFD) ==> nodes[n].hostPath == ["dev", "vfio", "devices", dev.iommuFD])
  }

  /** One node for each device of each id, in order: the node of the device's handle. */
  predicate DeviceNodes(iommuMap: map<string, seq<NvDevice>>, ids: seq<string>, nodes: seq<DeviceSpec>) {
    && |nodes| == DeviceCount(iommuMap, ids)
    && forall j, i | 0 <= j < |ids| && ids[j] in iommuMap && 0 <= i < |iommuMap[ids[j]]| ::
         DeviceNodeAt(iommuMap[ids[j]][i], DeviceCount(iommuMap, ids[..j]) + i, nodes)
  }

  /** What a container that asks for these ids is to get. */
  predicate Entitled(iommuMap: map<string, seq<NvDevice>>, fd: bool, ids: seq<string>, nodes: seq<DeviceSpec>) {
    SamePaths(nodes) && if fd then DeviceNodes(iommuMap, ids, nodes) else GroupNodes(ids, nodes)
  }

  lemma VfioPaths(name: string)
    ensures CONTROL_NODE == ["dev", "vfio", "vfio"]
    ensures PlainName(name) ==> Join(VFIO_DIR, name) == ["dev", "vfio", name]
    ensures PlainName(name) ==> Join(VFIO_DEVICES_DIR, name) == ["dev", "vfio", "devices", name]
  {
    JoinName(VFIO_DIR, "vfio");
    assert VFIO_DIR + ["vfio"] == ["dev", "vfio", "vfio"];
    if PlainName(name) {
      JoinName(VFIO_DIR, name);
      JoinName(VFIO_DEVICES_DIR, name);
      assert VFIO_DIR + [name] == ["dev", "vfio", name];
      assert VFIO_DEVICES_DIR + [name] == ["dev", "vfio", "devices", name];
    }
  }

  lemma {:induction false} HandleNodesAre(devices: seq<NvDevice>)
    ensures SamePaths(HandleNodes(devices))
    ensures forall i | 0 <= i < |devices| :: DeviceNodeAt(devices[i], i, HandleNodes(devices))
  {
    if devices != [] {
      var n := |devices| - 1;
      HandleNodesAre(devices[..n]);
      VfioPaths(devices[n].iommuFD);
      forall i | 0 <= i < n ensures DeviceNodeAt(devices[i], i, HandleNodes(devices)) {
        assert DeviceNodeAt(devices[..n][i], i, HandleNodes(devices[..n]));
      }
    }
  }

  lemma GroupNodesSnoc(ids: seq<string>, nodes: seq<DeviceSpec>, id: string, control: DeviceSpec, group: DeviceSpec)
    requires GroupNodes(ids, nodes) && control.hostPath == ["dev", "vfio", "vfio"]
    requires PlainName(id) ==> group.hostPath == ["dev", "vfio", id]
    ensures GroupNodes(ids + [id], nodes + [control, group])
  {}

  lemma SamePathsConcat(a: seq<DeviceSpec>, b: seq<DeviceSpec>)
    requires SamePaths(a) && SamePaths(b)
    ensures SamePaths(a + b)
  {}

  lemma {:induction false} GroupNodesAre(iommuMap: map<string, seq<NvDevice>>, ids: seq<string>)
    requires forall id | id in ids :: id in iommuMap
    ensures SamePaths(NodesOfAll(iommuMap, false, ids)) && GroupNodes(ids, NodesOfAll(iommuMap, false, ids))
  {
    if ids != [] {
      var init, last := ids[..|ids| - 1], ids[|ids| - 1];
      assert forall id | id in init :: id in ids;
      GroupNodesAre(iommuMap, init);
      VfioPaths(last);
      var control, group := NodeAt(CONTROL_NODE), NodeAt(Join(VFIO_DIR, last));
      GroupNodesSnoc(init, NodesOfAll(iommuMap, false, init), last, control, group);
      SamePathsConcat(NodesOfAll(iommuMap, false, init), [control, group]);
      assert ids == init + [last];
    }
  }

  lemma DeviceNodesSnoc(iommuMap: map<string, seq<NvDevice>>, ids: seq<string>, nodes: seq<DeviceSpec>, id: string,
                        more: seq<DeviceSpec>)
    requires DeviceNodes(iommuMap, ids, nodes) && id in iommuMap && |more| == |iommuMap[id]|
    requires forall i | 0 <= i < |more| :: DeviceNodeAt(iommuMap[id][i], i, more)
    ensures DeviceNodes(iommuMap, ids + [id], nodes + more)
  {
    var n, all := |ids|, ids + [id];
    assert all[..n] == ids;
    forall j, i | 0 <= j < |all| && all[j] in iommuMap && 0 <= i < |iommuMap[all[j]]|
      ensures DeviceNodeAt(iommuMap[all[j]][i], DeviceCount(iommuMap, all[..j]) + i, nodes + more) {
      if j < n {
        assert ids[..j] == all[..j];
        assert DeviceNodeAt(iommuMap[ids[j]][i], DeviceCount(iommuMap, ids[..j]) + i, nodes);
      } else {
        assert DeviceNodeAt(iommuMap[id][i], i, more);
      }
    }
  }

  lemma {:induction false} DeviceNodesAre(iommuMap: map<string, seq<NvDevice>>, ids: seq<string>)
    requires forall id | id in ids :: id in iommuMap
    ensures SamePaths(NodesOfAll(iommuMap, true, ids)) && DeviceNodes(iommuMap, ids, NodesOfAll(iommuMap, true, ids))
  {
    if ids != [] {
      var init, last := ids[..|ids| - 1], ids[|ids| - 1];
      assert forall id | id in init :: id in ids;
      var before, more := NodesOfAll(iommuMap, true, init), HandleNodes(iommuMap[last]);
      DeviceNodesAre(iommuMap, init);
      HandleNodesAre(iommuMap[last]);
      DeviceNodesSnoc(iommuMap, init, before, last, more);
      SamePathsConcat(before, more);
      assert ids == init + [last];
    }
  }

  /** The nodes collected for the ids are those they entitle to. */
  lemma NodesEntitled(iommuMap: map<string, seq<NvDevice>>, fd: bool, ids: seq<string>)
    requires forall id | id in ids :: id in iommuMap
    ensures Entitled(iommuMap, fd, ids, NodesOfAll(iommuMap, fd, ids))
  {
    if fd {
      DeviceNodesAre(iommuMap, ids);
    } else {
      GroupNodesAre(iommuMap, ids);
    }
  }

  lemma OneEntitled(iommuMap: map<string, seq<NvDevice>>, fd: bool, id: string)
    requires id in iommuMap
    ensures Entitled(iommuMap, fd, [id], NodesOf(iommuMap, fd, id))
  {
    NodesEntitled(iommuMap, fd, [id]);
    assert [id][..0] == [];
    assert NodesOfAll(iommuMap, fd, [id]) == NodesOf(iommuMap, fd, id);
  }

  // ---------------------------------------------------------------- the handler

  /** The loop over the devices of one id under IOMMUFD. */
  method CollectHandles(nvDevs: seq<NvDevice>) returns (r: Result<seq<DeviceSpec>, AllocateError>)
    ensures r.Ok? <==> forall i | 0 <= i < |nvDevs| :: nvDevs[i].iommuFD != ""
    ensures r.Ok? ==> r.value == HandleNodes(nvDevs)
    ensures r.Err? ==> exists i | 0 <= i < |nvDevs| ::
              && nvDevs[i].iommuFD == "" && r.error == NoHandle(nvDevs[i].address)
              && forall i' | 0 <= i' < i :: nvDevs[i'].iommuFD != ""
  {
    var nodes: seq<DeviceSpec> := [];
    for i := 0 to |nvDevs|
      invariant forall i' | 0 <= i' < i :: nvDevs[i'].iommuFD != ""
      invariant nodes == HandleNodes(nvDevs[..i])
    {
      if nvDevs[i].iommuFD == "" {
        return Err(NoHandle(nvDevs[i].address));
      }
      HandleNodesSnoc(nvDevs[..i], nvDevs[i]);
      assert nvDevs[..i + 1] == nvDevs[..i] + [nvDevs[i]];
      nodes := nodes + [NodeAt(Join(VFIO_DEVICES_DIR, nvDevs[i].iommuFD))];
    }
    assert nvDevs[..|nvDevs|] == nvDevs;
    return Ok(nodes);
  }

  /** The body of the loop over the requested ids: look the id up and collect its nodes. */
  method CollectNodes(iommuMap: map<string, seq<NvDevice>>, fd: bool, iommuID: string)
    returns (r: Result<seq<DeviceSpec>, AllocateError>)
    ensures r.Ok? <==> Grantable(iommuMap, fd, iommuID)
    ensures r.Ok? ==> r.value == NodesOf(iommuMap, fd, iommuID) && Entitled(iommuMap, fd, [iommuID], r.value)
    ensures r.Err? ==> Explains(iommuMap, iommuID, r.error)
  {
    if iommuID !in iommuMap {
      return Err(UnknownId(iommuID));
    }
    OneEntitled(iommuMap, fd, iommuID);
    var nvDevs := iommuMap[iommuID];
    if !fd {
      return Ok([NodeAt(CONTROL_NODE), NodeAt(Join(VFIO_DIR, iommuID))]);
    }
    r := CollectHandles(nvDevs);
  }

  /** The response for one container. */
  method AllocateContainer(iommuMap: map<string, seq<NvDevice>>, fd: bool, ids: seq<string>)
    returns (r: Result<seq<DeviceSpec>, AllocateError>)
    ensures r.Ok? <==> GrantableAll(iommuMap, fd, ids)
    ensures r.Ok? ==> (forall id | id in ids :: id in iommuMap) && r.value == NodesOfAll(iommuMap, fd, ids)
    ensures r.Ok? ==> Entitled(iommuMap, fd, ids, r.value)
    ensures r.Err? ==> exists j | 0 <= j < |ids| :: RefusedAt(iommuMap, fd, ids, j, r.error)
  {
    var deviceSpecs: seq<DeviceSpec> := [];
    for j := 0 to |ids|
      invariant GrantableAll(iommuMap, fd, ids[..j])
      invariant forall id | id in ids[..j] :: id in iommuMap
      invariant deviceSpecs == NodesOfAll(iommuMap, fd, ids[..j])
    {
      var nodes := CollectNodes(iommuMap, fd, ids[j]);
      if nodes.Err? {
        assert RefusedAt(iommuMap, fd, ids, j, nodes.error);
        return Err(nodes.error);
      }
      NodesSnoc(iommuMap, fd, ids[..j], ids[j]);
      assert ids[..j + 1] == ids[..j] + [ids[j]];
      deviceSpecs := deviceSpecs + nodes.value;
    }
    assert ids[..|ids|] == ids;
    NodesEntitled(iommuMap, fd, ids);
    return Ok(deviceSpecs);
  }

  /** All or nothing: one response per container in order, or the error about the first id that cannot be granted. */
  method Allocate(iommuMap: map<string, seq<NvDevice>>, probe: Result<bool, string>, reqs: seq<seq<string>>)
    returns (r: Result<seq<seq<DeviceSpec>>, AllocateError>)
    ensures probe.Err? ==> r == Err(NoIommufdInfo(probe.error))
    ensures probe.Ok? ==> (r.Ok? <==> forall c | 0 <= c < |reqs| :: GrantableAll(iommuMap, probe.value, reqs[c]))
    ensures r.Ok? ==> |r.value| == |reqs| && forall c | 0 <= c < |reqs| ::
              (forall id | id in reqs[c] :: id in iommuMap)
              && r.value[c] == NodesOfAll(iommuMap, probe.value, reqs[c])
    ensures r.Ok? ==> forall c | 0 <= c < |reqs| :: Entitled(iommuMap, probe.value, reqs[c], r.value[c])
    ensures probe.Ok? && r.Err? ==> exists c, j | 0 <= c < |reqs| && 0 <= j < |reqs[c]| ::
              (forall c' | 0 <= c' < c :: GrantableAll(iommuMap, probe.value, reqs[c']))
              && RefusedAt(iommuMap, probe.value, reqs[c], j, r.error)
  {
    if probe.Err? {
      return Err(NoIommufdInfo(probe.error));
    }
    var fd := probe.value;
    var responses: seq<seq<DeviceSpec>> := [];
    for c := 0 to |reqs|
      invariant |responses| == c
      invariant forall c' | 0 <= c' < c :: GrantableAll(iommuMap, fd, reqs[c'])
                  && (forall id | id in reqs[c'] :: id in iommuMap)
                  && responses[c'] == NodesOfAll(iommuMap, fd, reqs[c'])
      invariant forall c' | 0 <= c' < c :: Entitled(iommuMap, fd, reqs[c'], responses[c'])
    {
      var response := AllocateContainer(iommuMap, fd, reqs[c]);
      if response.Err? {
        return Err(response.error);
      }
      responses := responses + [response.value];
    }
    return Ok(responses);
  }

  // ---------------------------------------------------------------- how much is handed out

  function NodeCount(ix: Index, fd: bool): string -> nat {
    id => if !fd then 2 else if id in ix.iommuMap then |ix.iommuMap[id]| else 0
  }

  /** Two nodes per id in legacy mode, one per device of the bucket under IOMMUFD. */
  lemma {:induction false} NodesCounted(ix: Index, fd: bool, ids: seq<string>)
    requires forall id | id in ids :: id in ix.iommuMap
    ensures |NodesOfAll(ix.iommuMap, fd, ids)| == Sum(NodeCount(ix, fd), ids)
  {
    if ids != [] {
      var init, last := ids[..|ids| - 1], ids[|ids| - 1];
      assert forall id | id in init :: id in ids;
      NodesCounted(ix, fd, init);
      assert ids == init + [last];
      SumConcat(NodeCount(ix, fd), init, [last]);
      assert |NodesOf(ix.iommuMap, fd, last)| == NodeCount(ix, fd)(last) == Sum(NodeCount(ix, fd), [last]);
    }
  }

  /** An advertised id is never unknown; it can be refused only for a missing handle. */
  lemma AdvertisedIdsKnown(ix: Index, fd: bool, devs: seq<PciDevice>, advertised: string, id: string)
    requires SpecifiedBy(ix, fd, devs) && Lists(ix, advertised, id)
    ensures id in ix.iommuMap
    ensures Grantable(ix.iommuMap, fd, id) <==>
            !fd || forall i | 0 <= i < |devs| && HasKey(fd, devs, i, id) :: devs[i].iommuFD != ""
  {
    DiscoveryPartitions(ix, fd, devs);
    forall i | 0 <= i < |devs| && HasKey(fd, devs, i, id) ensures devs[i].Record() in ix.iommuMap[id] {
      BucketMember(fd, devs, id, devs[i].Record());
    }
    forall r | r in ix.iommuMap[id]
      ensures exists i | 0 <= i < |devs| :: HasKey(fd, devs, i, id) && devs[i].Record() == r {
      BucketMember(fd, devs, id, r);
    }
    var bucket := ix.iommuMap[id];
    assert forall p | 0 <= p < |bucket| :: bucket[p] in bucket;
    if Grantable(ix.iommuMap, fd, id) && fd {
      forall i | 0 <= i < |devs| && HasKey(fd, devs, i, id) ensures devs[i].iommuFD != "" {
        var p :| 0 <= p < |bucket| && bucket[p] == devs[i].Record();
      }
    }
  }
}
