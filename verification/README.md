# Verification model of the sandbox device plugin

The device plugin discovers NVIDIA GPUs and NVSwitches bound to `vfio-pci`, publishes them to the kubelet as extended
resources, writes CDI specs for them, hands out their VFIO nodes, and keeps their health up to date. A script beside it
assembles the third-party notices of the release. This project models the four parts of that system whose correctness
is not evident from any single function, and proves what holds of them over all inputs, all runs and all choices the
environment leaves open.

`dafny verify dfyconfig.toml` checks everything.

| module | what it covers |
|---|---|
| `Discovery` | the loop that indexes the PCI devices, the stable group-by it amounts to, and what a key identifies |
| `Naming` | the regular-expression passes over device names, the name lookup over a randomly ordered map |
| `Allocation` | `Allocate`: exactness, all or nothing, which nodes and how many |
| `Cdi`, `Generation`, `GenerationProperties`, `GenerationChoices`, `CdiLibrary` | spec generation: sorting, entries, whole runs with failures, coverage, conservation, independence of map order and of the unstable sort, what the CDI library accepts |
| `Publishing` | plugin creation, and its agreement with the specs, with `Allocate` and with the watched paths |
| `Protocol` | the concurrent plugin protocol as a labelled transition system |
| `ProtocolInvariants`, `ProtocolStreams`, `ProtocolHealth` | what every run keeps, streams on their own, what becomes of verdicts and in what order they are applied |
| `ProtocolSurvival` | exactly what ends a health loop or a stream, and that nothing else does |
| `ProtocolLists`, `ProtocolMixing` | the lists that streams send, and exactly when they can differ from snapshots |
| `ProtocolStops`, `ProtocolBlocking`, `ProtocolRuns` | when a stopped plugin stays down, when a call panics, which sends block for ever, and runs that show where the guarantees end |
| `Lifecycle`, `PluginServer` | the plugin object, whose `Start`, `Stop`, `restart`, `ListAndWatch` and `healthCheck` change its fields in place, tied to the protocol |
| `HealthEvents` | what file-system events do to the health of a device, and that a run takes the same events in the same way |
| `Fences`, `NoticeIndex` | the notices script: fenced sections read back under CommonMark 0.31.2 section 4.5, module lookup, index collapse |
| `Text`, `Sequences` | decimal and hexadecimal text, path joining, permutations, sums |

How the parts that are not computation enter:

- A range over a Go map visits the keys in an arbitrary order, chosen afresh each time (`IterationOf`, `Choices`,
  `Lookups`). `sort.Slice` is any function that returns a sorted permutation (`Sorter`).
- The IOMMUFD probe, the PCI scan, listening, registering, removing the socket and adding a watch succeed or fail as the
  environment decides. The CDI library accepts or refuses a spec (`Library`); `ChecksContent` states what it checks of the
  devices, and leaves what it checks of the class open.
- A path is a cleaned absolute path given as its components; joining a name to it cleans lexically, as `filepath.Join` does.
- Concurrency is interleaving of single accesses to what the goroutines share. In `Protocol` each of these is one step:
  the nil tests of `Start`, `Stop` and `restart`; replacing the stop channel and listening; the assignment of the new
  server; serving on it; the registration together with spawning the health check; the send on `term`; stopping the server
  the field names; clearing the field; receiving an event; the rendezvous of a verdict; applying a verdict to the shared
  device list; reading one device of that list while sending it; handing the list that was read to the connection.
  Applying a verdict is one write because the ids of a plugin are distinct (`DiscoveryPartitions`). The server field is nil
  or names a server that is yet to serve, serving, or stopped; servers that still serve and that the field no longer names
  are counted apart.

What the proofs bring to light about the code:

- After the controller's `Stop` has finished, the plugin stays down in every continuation exactly when no server is up,
  the field is nil, and no restart is at a point from which it goes on to `Start` and finds the field nil: about to call
  `Stop` after its own nil test, about to clear the field (which includes waiting inside the server's own stop), or inside
  `Start` before it assigns the new server (`StaysDownIff`; runs in `RevivedAfterShutdown`, `RevivedFromInsideStop`). The
  controller's clearing of the field can also lose a server that the restart has just started (`NewServerDropped`).
- While the controller is inside `Stop` and a restart is anywhere from its own `Stop` to serving on its new server, either
  can find the field cleared under it and panic. Without such an overlap nobody does (`NoOverlapNoPanic`), and at the first
  overlap a panic can follow except in one case, in which the restart is stuck for ever at its send on `term`
  (`OverlapPanicsIff`).
- A `Start` of the controller that fails at `Register` leaves its server up without a health check, and because the plugin
  is then not in the controller's list, nothing ever takes that server down (`FailedRegisterOrphans`). A restart that fails
  there leaves its server up exactly when the controller has not stopped it meanwhile (`FailedRestartServerUp`), and for
  good exactly when the controller is past stopping it (`OrphanServesIff`).
- A token left in `term`, by a restart that had no stream to signal, can end a stream of the new server; with an empty slot
  no stream can be ended without a further `Stop` (`StaleTokenIff`).
- With several streams no verdict is lost or applied twice (`VerdictsConserved`). Verdicts are applied in the order of
  their delivery as long as no two streams hold different ones at once (`OrderKept`); the first time two do, the run can go
  on to apply them the other way round (`TwoHoldersSwap`).
- Writing the shared list and sending it are not one step, so the k-th list sent need not be what the first k verdicts
  leave. It is as long as no two streams are between receiving a verdict and having sent the list (`ListsAreSnapshots`). The
  first time two are, the next list can be read one verdict late (`NextListLate`, `FirstListShowsBoth`), and without further
  verdicts a list can differ from its snapshot exactly when one of the two verdicts changes a device after the other
  (`ListsDifferIff`). In every run a list includes its sender's own verdict and shows each device as some number of the
  first verdicts left it, never fewer for a later device (`ListsRead`).
- A restart that posts, takes the server down and then fails to listen can leave the controller's own send on `term`
  without a receiver: shutdown hangs (`ShutdownHangs`; `ControllerHangsIff` says exactly when). In the same way a health loop
  that sends a verdict while no stream is live or can open waits for ever and notices neither the stop channel nor the
  removal of the socket (`LoopBlockedIff`).
- An IOMMU group with two devices yields two entries of one name, and a device without an IOMMU group yields the name "-1";
  the CDI library refuses both, and generation then fails (`CompletesIffAcceptable`, `UnnamedKeysFail`).
- Without aliases, two ids of one category with one name write to the same spec, and which of them survives depends on
  Go's map order. `OutputDeterminedIff` gives the exact condition under which nothing written depends on such choices. The
  same two ids, or any two ids of one category under an alias, also share a plugin socket (`SocketsDistinctIff`).
- An NVSwitch id published under the name that is the GPU alias replaces the spec of all GPUs (`GpuAliasSpec`).
- In IOMMUFD mode a device without a handle falls into the bucket of a handle whose number equals its group number
  (`IommufdKeysCollide`). An IOMMU group with a GPU and an NVSwitch is listed under the id of the first of them.
- The comment at `pkg/device_plugin/cdi.go:152-153` says keys may read "vfio8"; discovery strips that prefix
  (`device_plugin.go:188-190`), and the model follows discovery.

## Model

| member | source | states |
|---|---|---|
| Discovery.Registry.AddDevice | pkg/device_plugin/device_plugin.go:170-221 | one device of the scan changes the indexes exactly as the single-device specification says; ineligible devices change nothing |
| Discovery.Registry.CreateIommuDeviceMap | pkg/device_plugin/device_plugin.go:153-222 | after a successful scan the indexes are the stable group-by of the eligible devices; a failed probe keeps the old indexes, a failed scan empties them |
| Discovery.StepSpecified | pkg/device_plugin/device_plugin.go:192-220 | the group-by of a list with one more device is the group-by before it, updated at that device |
| Discovery.SpecificationUnique | pkg/device_plugin/device_plugin.go:159-161 | the group-by determines all three indexes |
| Discovery.ListedUnderFirstId | pkg/device_plugin/device_plugin.go:201-204 | a key is advertised under an id if and only if the first device with that key has that id |
| Discovery.ListedInOrder | pkg/device_plugin/device_plugin.go:202-204 | the keys of an id stand in order of first appearance |
| Discovery.BucketMember | pkg/device_plugin/device_plugin.go:213-220 | a record is in a bucket if and only if some eligible device with that key has it |
| Discovery.BucketInScanOrder | pkg/device_plugin/device_plugin.go:183-220 | a bucket holds the records of exactly the devices on vfio-pci, of the three classes, whose handle without its prefix, or else whose group in decimal, is its key: each once, in the order of the scan |
| Discovery.IndexedExactly | pkg/device_plugin/device_plugin.go:170-220 | a record stands in the index if and only if it is, field by field, that of a scanned device with driver vfio-pci and one of the three PCI classes; it is marked an NVSwitch exactly for class 0x068000 |
| Discovery.SwitchIdsExactly | pkg/device_plugin/device_plugin.go:206-211 | an id is an NVSwitch id if and only if a device on vfio-pci of class 0x068000 has it |
| Discovery.DiscoveryPartitions | pkg/device_plugin/device_plugin.go:201-220 | no list is empty, and every key is listed exactly once, under exactly one id |
| Discovery.DevicesConserved | pkg/device_plugin/device_plugin.go:170-221 | over any iteration of the index, bucket sizes add up to the number of eligible devices |
| Discovery.LegacyKeysFaithful | pkg/device_plugin/device_plugin.go:187-220 | in the index of a legacy scan two eligible devices share a bucket if and only if they share an IOMMU group |
| Discovery.PrefixedKeysFaithful | pkg/device_plugin/device_plugin.go:188-220 | in the index of an IOMMUFD scan two eligible devices with prefixed handles share a bucket if and only if they share the handle |
| Discovery.IommufdKeysCollide | pkg/device_plugin/device_plugin.go:183-220 | in the index of an IOMMUFD scan two eligible devices share a bucket if and only if they are one unit of isolation or their keys clash: one has no handle and its group is the other's stripped handle, or one handle is the other without its prefix |
| Text.AtoiOfItoa | pkg/device_plugin/device_plugin.go:187 | decimal text of an integer reads back as it if it is a machine int, and as an error otherwise |
| Text.Hex4Injective | pkg/device_plugin/device_plugin.go:192 | the four-digit hexadecimal form identifies a 16-bit device id |
| Text.Hex4Shape | pkg/device_plugin/device_plugin.go:192 | that form has four characters, each a digit or one of a to f |
| Text.AtoiForms | pkg/device_plugin/cdi.go:231-239 | which texts are not numbers, and that a plus sign or a leading zero changes nothing |
| Naming.PassesAreTransducer | pkg/device_plugin/device_plugin.go:260-271 | the chain of passes equals one left-to-right transducer with one bit of state |
| Naming.FormatNormalises | pkg/device_plugin/device_plugin.go:256-272 | the result is over [A-Z0-9_-], no longer than the name, and formatting it again changes nothing |
| Naming.FormatConcat | pkg/device_plugin/device_plugin.go:266-271 | formatting distributes over a join if and only if no white space meets white space at it |
| Naming.FormatCharacter | pkg/device_plugin/device_plugin.go:256-272 | letters become upper case, digits, underscore and hyphen stay, a white-space character, slash or full stop becomes an underscore, and exactly all else is dropped |
| Naming.FirstNameIsFirst | pkg/device_plugin/device_plugin.go:242-251 | a bucket offers the formatted name of its first device with the id |
| Naming.NameOrderFree | pkg/device_plugin/device_plugin.go:242-253 | the name found for an id is independent of map order if and only if all buckets that offer one agree |
| Naming.OneNameAgrees | pkg/device_plugin/device_plugin.go:242-253 | where the scan gives each device id one name, the buckets agree |
| Naming.PublishedNameOrderFree | pkg/device_plugin/device_plugin.go:102-119 | then the published name is the same under any two map orders, for all alias settings |
| Naming.PublishedAs | pkg/device_plugin/device_plugin.go:103-119 | an NVSwitch id is published under the NVSwitch alias and any other id under the GPU alias, where that alias is set; otherwise under the formatted name of an eligible device with that id, or the id itself if that is empty |
| Allocation.CollectNodes | pkg/device_plugin/generic_device_plugin.go:245-279 | one id is granted if and only if it is known and, under IOMMUFD, all its devices have handles; the nodes are the ones it is entitled to (see `Allocate`); the error names the id, or the first device without one |
| Allocation.CollectHandles | pkg/device_plugin/generic_device_plugin.go:253-264 | the devices of one id under IOMMUFD: one node each in order, or the error about the first device without a handle |
| Allocation.AllocateContainer | pkg/device_plugin/generic_device_plugin.go:244-283 | a container gets the nodes its ids are entitled to, in order, or the error about the first id that cannot be granted |
| Allocation.Allocate | pkg/device_plugin/generic_device_plugin.go:237-290 | all or nothing: one response per container in order exactly when every id can be granted, otherwise the first refusal; each node has one path on both sides and permissions mrw; in legacy mode an id gets /dev/vfio/vfio and its group's node, under IOMMUFD the node of each of its devices' handles under /dev/vfio/devices, in order |
| Allocation.NodesCounted | pkg/device_plugin/generic_device_plugin.go:253-279 | two nodes per id in legacy mode, the sum of bucket sizes under IOMMUFD |
| Allocation.AdvertisedIdsKnown | pkg/device_plugin/device_plugin.go:93-100 | an advertised id is never unknown to Allocate; it is always granted in legacy mode, and under IOMMUFD exactly when every device of that key has a handle |
| Cdi.NumberRoundTrip | pkg/device_plugin/cdi.go:231-239 | a machine int reads back from its decimal text with or without a letter prefix; out-of-range text reads as 0 |
| Cdi.DecimalKeysTie | pkg/device_plugin/cdi.go:157-159 | distinct decimal keys tie in the sort exactly when both read as 0 |
| Cdi.SortsCoincide | pkg/device_plugin/cdi.go:155-159 | keys with distinct numbers sort to one sequence, whatever order they came in and however ties are broken |
| Cdi.OrderDeterminedIff | pkg/device_plugin/cdi.go:149-159 | the sorted order is determined if and only if no two keys are read as the same number |
| Cdi.SortedEntriesAscend | pkg/device_plugin/cdi.go:155-161 | the entries of sorted keys ascend by the numbers read from their names |
| Cdi.EntriesCount | pkg/device_plugin/cdi.go:161-190 | a key in scope has one entry for each device of its bucket; other names have none |
| Cdi.EntryNamesUnique | pkg/device_plugin/cdi.go:187-190 | names within a spec are unique if and only if every bucket in scope has at most one device |
| Cdi.NodesForDevice | pkg/device_plugin/cdi.go:168-181 | a device with a handle has its one node under IOMMUFD; in legacy mode, or without a handle, a device has the control node and the node of its key |
| Cdi.CdiAgreesWithAllocate | pkg/device_plugin/cdi.go:164-190 | for a key Allocate grants, the device nodes of its CDI entries are exactly the host paths Allocate returns |
| Generation.CdiDirectory.CollectBucket | pkg/device_plugin/cdi.go:163-195 | the entries of one bucket, one for each device in order |
| Generation.CdiDirectory.CollectEntries | pkg/device_plugin/cdi.go:161-195 | the entries of the sorted keys, bucket after bucket |
| Generation.CdiDirectory.GenerateForClass | pkg/device_plugin/cdi.go:141-227 | one class: its spec replaces an earlier one, nothing is written without entries, and a failure leaves the directory as it was |
| Generation.CdiDirectory.GenerateCategory | pkg/device_plugin/cdi.go:71-101 | one category performs its jobs in order up to the first failure: one job under the alias, or one for each id |
| Generation.CdiDirectory.GenerateCDISpec | pkg/device_plugin/cdi.go:60-135 | the whole run is the GPU jobs followed by the NVSwitch jobs, stopped by the first failure, after the two early exits |
| Generation.RunConcat | pkg/device_plugin/cdi.go:71-132 | a run over two lists of jobs is the first run, continued by the second unless it failed |
| GenerationProperties.JobsCoverKeysOnce | pkg/device_plugin/cdi.go:71-132 | for all aliases and map orders the jobs together name every discovered key exactly once |
| GenerationProperties.LastJobWins | pkg/device_plugin/cdi.go:221 | a class ends up with the entries of the last job that has it |
| GenerationProperties.FailedProbeStops | pkg/device_plugin/cdi.go:144-147 | a failed probe fails the first job and writes nothing |
| GenerationProperties.RunStops | pkg/device_plugin/cdi.go:71-132 | a run performs its jobs up to the first that is refused, reports that one, and keeps what it has written before |
| GenerationProperties.SpecsCoverDevices | pkg/device_plugin/cdi.go:71-200 | with distinct classes every key stands in exactly one spec, with as many entries as its bucket has devices; no spec is empty |
| GenerationProperties.SpecsSeparateCategories | pkg/device_plugin/cdi.go:74-200 | whatever the classes and even when a run fails, no empty spec is written and the keys of one spec are listed under GPU ids only or under NVSwitch ids only |
| GenerationProperties.SpecsAscend | pkg/device_plugin/cdi.go:149-200 | whatever the classes and even when a run fails, the entries of a spec ascend by the numbers read from their names |
| GenerationProperties.EntriesConserved | pkg/device_plugin/cdi.go:71-200 | the written specs hold as many entries as there are eligible devices if and only if no two jobs share a class, and never more |
| CdiLibrary.DecimalName | vendor/tags.cncf.io/container-device-interface/pkg/parser/parser.go:176-199 | the decimal text of an integer is a valid device name if and only if the integer is not negative |
| CdiLibrary.CompletesIffAcceptable | vendor/tags.cncf.io/container-device-interface/pkg/cdi/spec.go:219-252 | generation completes if and only if every bucket has one device, every key is a valid device name and every class passes the library's other checks |
| GenerationProperties.LegacyKeysTellApart | pkg/device_plugin/device_plugin.go:187 | in legacy mode no two keys are read as the same number |
| GenerationProperties.DecimalKeysTellApart | pkg/device_plugin/cdi.go:231-239 | keys that are decimal texts of machine ints are never read as the same number |
| GenerationChoices.JobOf | pkg/device_plugin/cdi.go:74-131 | under any choices every id has a job in its category, with its published class and exactly the keys of the ids that share the job |
| GenerationChoices.IdOf | pkg/device_plugin/cdi.go:74-131 | and every job is that of some id |
| GenerationChoices.KeysUnderClass | pkg/device_plugin/cdi.go:71-132 | a completed generation holds a key, with all its devices, under the published class of its id and nowhere else if and only if no later job has that class |
| GenerationChoices.SwitchAliasSpec | pkg/device_plugin/cdi.go:105-117 | with the NVSwitch alias set, that holds of every key of an NVSwitch id, under the alias |
| GenerationChoices.GpuAliasSpec | pkg/device_plugin/cdi.go:71-132 | with the GPU alias set, it holds of every other key, under the alias, if and only if no NVSwitch id is published under that name |
| GenerationChoices.OwnNameSpec | pkg/device_plugin/cdi.go:86-131 | without the alias of its category, it holds of the keys of an id under the id's own name if no other id is published under that name |
| GenerationChoices.OutputCanonical | pkg/device_plugin/cdi.go:60-135 | completion and all written files are the same under any two map orders, lookups and sorts, for every alias setting, while classes are distinct and keys tell apart |
| GenerationProperties.AliasedOutputCanonical | pkg/device_plugin/cdi.go:71-117 | with both aliases set, outcome and directory are the same under any two choices, from any earlier directory and even when a spec is refused |
| CdiLibrary.AlwaysCompletesIff | vendor/tags.cncf.io/container-device-interface/pkg/cdi/spec.go:236-250 | where every class passes, generation completes under all choices if and only if every bucket holds one device and every key is a valid device name |
| CdiLibrary.AcceptableScan | pkg/device_plugin/device_plugin.go:187-220 | the index of a scan is acceptable if and only if no two eligible devices have one key and each key is a valid device name |
| CdiLibrary.LegacyScanAcceptable | pkg/device_plugin/device_plugin.go:187 | in legacy mode: if and only if no two eligible devices share an IOMMU group and none has a negative group |
| CdiLibrary.UnnamedKeysFail | vendor/tags.cncf.io/container-device-interface/pkg/parser/parser.go:176-182 | a device whose group is -1, or whose handle is the bare prefix, makes generation fail under all choices |
| GenerationChoices.KeysRoundTrip | pkg/device_plugin/cdi.go:161-190 | the order of the keys can be read back off the entries |
| GenerationChoices.OutputDeterminedIff | pkg/device_plugin/cdi.go:60-200 | where generation always completes, what it writes is the same for all choices if and only if every id is settled in each class it may have and cannot lose to an NVSwitch id: it may have no other class, no other job of its category may have that class, and its job's keys do not tie |
| Publishing.CreateDevicePlugins | pkg/device_plugin/device_plugin.go:81-133 | one plugin an id, in iteration order, with its name, socket, directory and all its keys as healthy devices; those whose Start succeeds are kept for shutdown, in order |
| Publishing.StartedExactly | pkg/device_plugin/device_plugin.go:127-132 | the plugins kept are exactly those created whose Start succeeds |
| Publishing.ResourceParts | pkg/device_plugin/generic_device_plugin.go:195 | a resource name, and a kind, is the vendor nvidia.com and the name |
| Publishing.AdvertisedOnce | pkg/device_plugin/device_plugin.go:93-100 | every discovered key is advertised by exactly one plugin, once |
| Publishing.ClassesArePublished | pkg/device_plugin/cdi.go:71-132 | the classes of the generation jobs are exactly the published names of the ids |
| Publishing.KindsAreResources | pkg/device_plugin/generic_device_plugin.go:195 | a completed generation writes a kind if and only if some plugin is created for the resource of that name, for all four alias settings |
| Publishing.SocketsDistinctIff | pkg/device_plugin/generic_device_plugin.go:66-71 | plugins have pairwise distinct sockets if and only if the choice of name is injective on the ids; so not when an alias covers two ids of its category |
| Publishing.WatchBijection | pkg/device_plugin/generic_device_plugin.go:357-366 | the watch map of a plugin built from discovery is a bijection between watched paths and advertised ids |
| Publishing.WatchedIsAllocated | pkg/device_plugin/generic_device_plugin.go:259-263 | with prefixed handles the path watched for an id is the one path Allocate hands out for it |
| Publishing.WatchedIsGroupNode | pkg/device_plugin/generic_device_plugin.go:357-366 | in legacy mode the path watched for an id is its group's node, the second of the two Allocate hands out |
| Protocol.FoldAt | pkg/device_plugin/generic_device_plugin.go:214-226 | applying verdicts keeps ids and order, and each device has its last verdict |
| ProtocolInvariants.RolesNeverGrow | pkg/device_plugin/generic_device_plugin.go:112-152 | no step adds a health-check role: a successful Start hands its caller's role to the loop it spawns |
| ProtocolInvariants.OneHealthLoop | pkg/device_plugin/generic_device_plugin.go:324-401 | over every run, with any number of restarts, at most one health loop has not ended, and none before the first Start returns |
| ProtocolInvariants.RestartPassesRole | pkg/device_plugin/generic_device_plugin.go:388-398 | a successful restart ends the loop that ran it and leaves the one it spawned as the only one |
| ProtocolSurvival.LoopEndsIff | pkg/device_plugin/generic_device_plugin.go:324-399 | a step ends a live health loop if and only if the loop waits on the controller's stop channel and that is closed, its set-up fails, or its restart ends there: no server to replace, one there already, a failed listen, or Register |
| ProtocolSurvival.LoopSurvivesIff | pkg/device_plugin/generic_device_plugin.go:324-399 | along any run a loop that is live at one point is live at a later one if and only if no such step has come between |
| ProtocolSurvival.LoopKeepsRole | pkg/device_plugin/generic_device_plugin.go:324-399 | over every run, while none has come, exactly one health-check role is left, and the loop holds it |
| ProtocolSurvival.EventLoopStep | pkg/device_plugin/generic_device_plugin.go:372-399 | a device event has the loop send its verdict, a receipt or an event that matches neither branch takes it back to its select, and all other steps leave it alone, unless it finds its socket removed or its stop channel closed |
| ProtocolSurvival.EventLoopStays | pkg/device_plugin/generic_device_plugin.go:372-399 | over every run a loop leaves its event loop for no reason but those two |
| ProtocolSurvival.StreamEndsIff | pkg/device_plugin/generic_device_plugin.go:208-233 | a step ends a live stream if and only if, at its select, it takes the token of `term` or finds the controller's stop channel closed |
| ProtocolSurvival.ClosingEnds | pkg/device_plugin/device_plugin.go:140-145 | closing that channel can end the loop and the stream that wait on it |
| ProtocolStops.FailedRegisterOrphans | pkg/device_plugin/generic_device_plugin.go:141-147 | in every run in which the controller's Register fails, from that step on the server serves, no health loop exists and the controller has given the plugin up |
| ProtocolStops.FailedRestartLeavesNoLoop | pkg/device_plugin/generic_device_plugin.go:141-147 | after a restart's Register fails, no health loop is live then or in any continuation |
| ProtocolStops.FailedRestartServerUp | pkg/device_plugin/generic_device_plugin.go:130-147 | when a restart's Register fails, a server is left up if and only if the controller has not stopped the new one since its creation |
| ProtocolStops.OrphanServesIff | pkg/device_plugin/device_plugin.go:127-145 | once no health loop is left, a server stays up in every continuation if and only if the controller is past stopping it |
| ProtocolInvariants.TermTokens | pkg/device_plugin/generic_device_plugin.go:155-167 | over every run, posts by Stop equal streams ended by `term` plus the token in its slot |
| ProtocolStreams.FullSlotBlocks | pkg/device_plugin/generic_device_plugin.go:161 | along any run a token stays and no Stop completes its send until a stream ends by `term` |
| ProtocolStreams.StaleTokenIff | pkg/device_plugin/generic_device_plugin.go:230-231 | a stream opened now can be ended by `term` without a further Stop if and only if the slot holds a token now |
| ProtocolInvariants.SoundKept | pkg/device_plugin/generic_device_plugin.go:112-167 | over every run, what the server field holds agrees with where the controller and the one live health loop stand in Start and Stop |
| ProtocolStops.StaysDownIff | pkg/device_plugin/generic_device_plugin.go:155-181 | over all runs, once the controller's Stop has finished, nothing serves in any continuation if and only if no server is up, the field is nil and no restart is on its way to setting it |
| ProtocolStops.NoOverlapNoPanic | pkg/device_plugin/generic_device_plugin.go:130-164 | as long as the controller has not been inside Stop while a restart was replacing the server, no run uses a cleared server field |
| ProtocolStops.OverlapPanicsIff | pkg/device_plugin/generic_device_plugin.go:130-164 | the first time both are so, the run can go on to a panic if and only if the restart is not stuck for ever at its send |
| ProtocolHealth.FeedKept | pkg/device_plugin/generic_device_plugin.go:376-387 | over every run, verdicts of consumed events are those delivered plus the one the health loop is sending |
| ProtocolHealth.ShownKept | pkg/device_plugin/generic_device_plugin.go:214-226 | over every run, with any number of streams, the device list is the fold of the verdicts applied |
| ProtocolHealth.VerdictsConserved | pkg/device_plugin/generic_device_plugin.go:211-227 | with any number of streams every verdict delivered has been applied once or is held by one stream |
| ProtocolHealth.OrderKept | pkg/device_plugin/generic_device_plugin.go:211-226 | over every run, as long as no two streams have held different verdicts at once, verdicts are applied in the order of their delivery |
| ProtocolHealth.HealthEndToEnd | pkg/device_plugin/generic_device_plugin.go:206-234 | in such runs the verdicts consumed are those applied, then those held by streams, then at most the one being sent, and each device, at its place, has its last applied verdict |
| ProtocolHealth.TwoHoldersSwap | pkg/device_plugin/generic_device_plugin.go:211-226 | the first time two streams hold different verdicts at once, the run can go on to apply them against the order of delivery |
| ProtocolLists.ListsRead | pkg/device_plugin/generic_device_plugin.go:219-227 | over every run, with any number of streams, a list sent after a verdict includes that verdict and shows each device as some number of the first verdicts left it, never fewer for a later device |
| ProtocolLists.FirstListFirst | pkg/device_plugin/generic_device_plugin.go:206-208 | over every run, a stream that has got past its first list has sent one that shows every device, read as such lists are, before doing anything else |
| ProtocolLists.OneListEach | pkg/device_plugin/generic_device_plugin.go:219-227 | over every run, each verdict applied has been answered with one list or is being answered |
| ProtocolLists.ListsAreSnapshots | pkg/device_plugin/generic_device_plugin.go:206-227 | over every run, as long as no two streams have been between a receipt and the list that answers it at once, the k-th list sent is what the first k verdicts leave, read after exactly those |
| ProtocolMixing.NextListLate | pkg/device_plugin/generic_device_plugin.go:214-227 | the first time two are, the run can go on to a list that is read after one verdict more |
| ProtocolMixing.ListsDifferIff | pkg/device_plugin/generic_device_plugin.go:214-227 | from then on, without a further receipt, a list can differ from the snapshot of its place if and only if one of the two verdicts changes a device when applied after the other, in an order still open |
| ProtocolHealth.RestartDetaches | pkg/device_plugin/generic_device_plugin.go:179-180 | after a restart's listen, closing the controller's stop channel ends no health loop in any continuation |
| ProtocolBlocking.LoopBlockedIff | pkg/device_plugin/generic_device_plugin.go:372-387 | over all runs, a health loop that sends a verdict, or posts in a restart's Stop, waits there in every continuation if and only if no stream is live or can open (and the slot is full, to post) |
| ProtocolBlocking.ControllerHangsIff | pkg/device_plugin/generic_device_plugin.go:155-167 | over all runs, the controller's send on `term` never completes in any continuation if and only if the slot is full, no stream is live or can open, and no restart can bring a server up |
| ProtocolRuns.RegistrationFails | pkg/device_plugin/generic_device_plugin.go:141-145 | a run in which the controller's Register fails, leaving a server out of its reach |
| ProtocolRuns.RevivedAfterShutdown | pkg/device_plugin/generic_device_plugin.go:170-181 | a run in which a restart past its guard revives the server the controller has taken down |
| ProtocolRuns.RevivedFromInsideStop | pkg/device_plugin/generic_device_plugin.go:163-180 | a run in which a restart waiting inside the server's stop revives it after the controller has finished |
| ProtocolRuns.NewServerDropped | pkg/device_plugin/generic_device_plugin.go:163-164 | a run in which the controller clears the field under a server the restart has just started, which goes on serving |
| ProtocolRuns.PanicOnNilServer | pkg/device_plugin/generic_device_plugin.go:163 | a run from the initial state that stops a nil server |
| ProtocolRuns.PanicOnNewServer | pkg/device_plugin/generic_device_plugin.go:130-133 | a run from the initial state in which a restart serves on a field the controller has cleared |
| ProtocolRuns.SwappedUpdates | pkg/device_plugin/generic_device_plugin.go:211-227 | with two live streams two verdicts are applied in the opposite order to their delivery |
| ProtocolRuns.FirstListShowsBoth | pkg/device_plugin/generic_device_plugin.go:214-227 | a run in which two verdicts are received and applied in order, and the first list sent shows both |
| ProtocolRuns.ShutdownHangs | pkg/device_plugin/generic_device_plugin.go:155-181 | a run in which a restart whose listen fails leaves the controller at a send on `term` that will never complete |
| ProtocolRuns.StaleTokenEndsNewStream | pkg/device_plugin/generic_device_plugin.go:230-231 | a token left by a restart ends a stream opened after it, with no Stop in between |
| Lifecycle.ControllerStarts | pkg/device_plugin/device_plugin.go:148-150 | the controller's Start without interference is the whole-call Start with the controller's stop channel |
| Lifecycle.ControllerStops | pkg/device_plugin/device_plugin.go:140-145 | the controller's Stop without interference is the whole-call Stop |
| Lifecycle.AtomicStopIsFinal | pkg/device_plugin/device_plugin.go:140-145 | over all runs, if that Stop runs while no restart is under way, no server is up in any continuation |
| Lifecycle.LoopRestarts | pkg/device_plugin/generic_device_plugin.go:388-398 | restart run by a health loop without interference is the whole-call restart, from the removed socket to the end of the loop |
| PluginServer.GenericDevicePlugin.constructor | pkg/device_plugin/generic_device_plugin.go:66-79 | a new plugin is the initial plugin of the protocol |
| PluginServer.GenericDevicePlugin.Start | pkg/device_plugin/generic_device_plugin.go:112-152 | the new state and the result are those of the whole-call Start, and only success spawns a health check |
| PluginServer.GenericDevicePlugin.Stop | pkg/device_plugin/generic_device_plugin.go:155-167 | the new state is that of the whole-call Stop; a full slot blocks it and changes nothing |
| PluginServer.GenericDevicePlugin.Restart | pkg/device_plugin/generic_device_plugin.go:170-181 | the new state and the result are those of the whole-call restart |
| PluginServer.GenericDevicePlugin.ApplyVerdict | pkg/device_plugin/generic_device_plugin.go:214-218 | the shared device objects are updated in place to the list with that verdict applied |
| PluginServer.GenericDevicePlugin.ListAndWatch | pkg/device_plugin/generic_device_plugin.go:206-234 | the lists sent are the first one and one after each verdict, the handler reads verdicts until a stop or term signal, and only a term signal empties the slot |
| PluginServer.SendsAt | pkg/device_plugin/generic_device_plugin.go:208-227 | the k-th list sent is the fold of the first k verdicts |
| PluginServer.ListShows | pkg/device_plugin/generic_device_plugin.go:206-227 | a handler that reads only verdicts sends one list more than it reads; the k-th shows every device at its place with what the first k verdicts last said of it |
| PluginServer.GenericDevicePlugin.WatchDevices | pkg/device_plugin/generic_device_plugin.go:357-370 | set-up succeeds exactly when every path is accepted, and the map is then complete |
| PluginServer.GenericDevicePlugin.ForwardEvents | pkg/device_plugin/generic_device_plugin.go:372-399 | the verdict of every event is sent in order, up to the first input that ends the loop: a stop request, or the removal of the plugin's own socket |
| PluginServer.GenericDevicePlugin.HealthCheck | pkg/device_plugin/generic_device_plugin.go:324-401 | when set-up fails, which verdicts are sent, what ends the loop, and that restart runs at most once, as the last act |
| PluginServer.VerdictsKnown | pkg/device_plugin/generic_device_plugin.go:377-387 | every verdict is about an advertised device |
| HealthEvents.LastEventDecides | pkg/device_plugin/generic_device_plugin.go:376-387 | what the verdicts sent leave of a device watched under one path: healthy if the last creation, removal or renaming of the path is a creation, unhealthy if it is one of the others, as before if there is none |
| HealthEvents.OneVerdictEach | pkg/device_plugin/generic_device_plugin.go:376-387 | as many verdicts are sent as there are such events at watched paths |
| HealthEvents.DiscoveredHealth | pkg/device_plugin/generic_device_plugin.go:357-387 | the same for every device of a plugin built from discovery, at the path watched for it |
| HealthEvents.TakeEvents | pkg/device_plugin/generic_device_plugin.go:372-399 | any events that do not end the loop can be taken in a run, which leaves the loop at its select and has consumed exactly the verdicts `HealthCheck` sends for them |
| Fences.FenceFor | scripts/generate-third-party-notices.sh:51-60 | the fence has the least width, from three up, of which the file has no run of backticks |
| Fences.WidthIsFence | scripts/generate-third-party-notices.sh:55-58 | the longest maximal run plus one, at least three, is that width |
| Fences.FenceWidthUnique | scripts/generate-third-party-notices.sh:49-60 | that property determines the width |
| Fences.NotClosed | scripts/generate-third-party-notices.sh:49-50 | a line without a run of the fence's width cannot close its block |
| Fences.EmitFile | scripts/generate-third-party-notices.sh:292-299 | what is printed for one file |
| Fences.EmitSections | scripts/generate-third-party-notices.sh:273-304 | what is printed for the index, row by row; rows without a package print nothing |
| Fences.ReadFile | scripts/generate-third-party-notices.sh:293-299 | one file's text reads back as exactly one block: its content and the added newline |
| Fences.FenceRoundTrip | scripts/generate-third-party-notices.sh:273-304 | reading the sections as CommonMark recovers every content plus its one newline, in order, whatever the files contain |
| Fences.HeadersRoundTrip | scripts/generate-third-party-notices.sh:277-292 | the lines outside the blocks give back the packages, the licenses, the modules and the file names, in order, with the defaults for empty fields |
| Fences.NoticeShown | scripts/generate-third-party-notices.sh:288-289 | a package without license files is followed by the notice that its text is unavailable |
| NoticeIndex.CoversIffSegments | scripts/generate-third-party-notices.sh:220 | the prefix test matches a module if and only if its path segments begin the package's |
| NoticeIndex.BestModule | scripts/generate-third-party-notices.sh:217-221 | the module found covers the package and is a longest one that does |
| NoticeIndex.BestUnique | scripts/generate-third-party-notices.sh:217-221 | it is unique and depends only on which modules are listed |
| NoticeIndex.Attribute | scripts/generate-third-party-notices.sh:187-222 | a package is attributed to what the last line of its longest module shows, or unknown |
| NoticeIndex.AttributionCanonical | scripts/generate-third-party-notices.sh:187-222 | where each path is shown in one way, reordering or repeating module lines never changes an attribution |
| NoticeIndex.CollapseIndex | scripts/generate-third-party-notices.sh:164-179 | the printed index has one line a package in order of first appearance, with its first link and its distinct licenses joined |
| NoticeIndex.LexLessIff | scripts/generate-third-party-notices.sh:165 | the order of the lines is that of the first difference, a text before its continuations |
| NoticeIndex.PackagesInOrder | scripts/generate-third-party-notices.sh:168 | packages stand in the order of their first lines |
| NoticeIndex.LicensesInOrder | scripts/generate-third-party-notices.sh:169-175 | the licenses of a package stand in the order of the first lines that have them |
| NoticeIndex.IndexReadsBack | scripts/generate-third-party-notices.sh:165-177 | each printed line splits into a package, the least of its links, and a third field that splits into exactly its distinct licenses |
| NoticeIndex.IndexOneLineEach | scripts/generate-third-party-notices.sh:165-177 | each collected package is the first field of exactly one printed line |
| NoticeIndex.IndexCanonical | scripts/generate-third-party-notices.sh:165 | the index depends only on the set of collected rows |
| NoticeIndex.IndexComplete | scripts/generate-third-party-notices.sh:166-177 | every collected package has exactly one line, whose licenses are those of its rows, each once |

## Left out

- CdiLibrary.CompletesIffAcceptable: the library's checks of the class, its writing of the file and the version check enter as a predicate on the class; for the specs generated here they depend on nothing else.
- GenerationChoices.OutputCanonical: assumes that ids without an alias have one name among their buckets, that classes are distinct and that keys tell apart, and in return covers completion; `OutputDeterminedIff` has the exact condition for what completing runs write.
- Publishing.KindsAreResources: assumes that ids without an alias have one name among their buckets; otherwise the two lookups may see different names.
- PluginServer.GenericDevicePlugin.ListAndWatch: takes what its `select` receives as a finite sequence, since a method here ends; the endless interleaved loop is the stream of `Protocol`.
- PluginServer.GenericDevicePlugin.HealthCheck: takes what its `select` receives as a finite sequence, likewise; delivery of the verdicts it sends is in `Protocol`.
- PluginServer.GenericDevicePlugin.Stop: reports a full `term` slot as a result instead of waiting; the wait is in `Protocol`.
- Naming.FormatNormalises: upper case is that of ASCII; every other character counts as caseless and is dropped by the last pass, so the few non-ASCII letters whose upper case is ASCII are not covered.
- Fences.FenceRoundTrip: index fields and file names hold no line ending; the sentence printed for a row without files is any line that begins no fence, heading or bullet; only fenced code blocks are read, without container blocks and without the replacement of NUL characters.
- NoticeIndex.IndexReadsBack: assumes that packages and links hold no comma and licenses no comma or slash; fields with one cannot be read back from a line.
- NoticeIndex.Attribute: starts from the module lines already split into path and shown path; parsing `modules.txt` and its error exits are not modelled.
- NoticeIndex.CollapseIndex: the pair of package and license is a pair; awk's joined subscript, which two pairs could share if a field held its separator, is not modelled.
- The protocol is that of one plugin; the controller's loop over several plugins, in which a blocked `Stop` also delays the plugins after it, is not modelled.
- Reading the list while sending it is one pass over the devices; the serialiser's separate pass that computes sizes is not modelled.
- The stop channel is signalled by closing it; a value sent on it, which would wake one receiver only, is not modelled.
- In `Protocol`, replacing the stop channel and listening are one step, and so are registering the service on a new server and serving; a stream or loop that would read the new stop channel just before the listen reads it just after, and a field cleared between registering the service and serving panics as one cleared before both does.
- Whether the kubelet would open a stream to a server whose socket file is gone is not modelled: a stream may open while any server serves.
- A stream that is receiving when its connection breaks ends only through `stop` or `term`, as in the handler; errors of `Send` are ignored there and here.
- gRPC, sockets, dialling and timeouts (`connect`, `waitForGrpcServer`, `Register`): success or failure only.
- Which file-system events really fire: the events are arbitrary.
- PCI scanning and the device-name database: a finite sequence of records.
- Spec naming, YAML and file writing: a map from class to entries.
- `gfd.go`, `main.go`, `GetPreferredAllocation`, `GetDevicePluginOptions`, `PreStartContainer`, logging: no behaviour worth a proof.
- The script's prerequisite checks, `go-licenses` runs, file selection and the index table.
