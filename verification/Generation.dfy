/** GenerateCDISpec over a whole index: which classes get a spec, what a failure leaves behind, and the
    conservation and order-independence of everything that is written. */
module Generation {
  import opened Cdi
  import opened Discovery
  import opened Naming
  import opened Sequences
  import opened Text

  /** One call of generateCDISpecForClass. */
  datatype Job = Job(class_: string, keys: seq<string>)

  datatype Outcome = Done | NoDirectory | Failed(class_: string)

  type Specs = map<string, seq<CdiDevice>>

  /** Whether the CDI library validates a spec and writes its file. */
  type Library = (string, seq<CdiDevice>) -> bool

  // ---------------------------------------------------------------- the jobs

  predicate InCategory(ix: Index, id: string, isSwitch: bool) {
    id in ix.deviceMap && (id in ix.nvSwitchDeviceIDs) == isSwitch
  }

  /** The keys of one category, over one iteration of deviceMap. */
  function CategoryKeys(ix: Index, order: seq<string>, isSwitch: bool): seq<string> {
    if order == [] then [] else
      var init, id := order[..|order| - 1], order[|order| - 1];
      CategoryKeys(ix, init, isSwitch) + if InCategory(ix, id, isSwitch) then ix.deviceMap[id] else []
  }

  /** One job for each id of the category. */
  function PerIdJobs(ix: Index, order: seq<string>, lookups: Lookups, isSwitch: bool): seq<Job> {
    if order == [] then [] else
      var init, id := order[..|order| - 1], order[|order| - 1];
      PerIdJobs(ix, init, lookups, isSwitch)
      + if InCategory(ix, id, isSwitch) then [Job(NameOrId(ix, lookups(id), id), ix.deviceMap[id])] else []
  }

  /** One job under the alias, or one for each id where the alias is unset. */
  function CategoryJobs(ix: Index, aliases: Aliases, order: seq<string>, lookups: Lookups, isSwitch: bool): seq<Job> {
    var alias, keys := aliases.For(isSwitch), CategoryKeys(ix, order, isSwitch);
    if alias == "" then PerIdJobs(ix, order, lookups, isSwitch)
    else if keys == [] then []
    else [Job(alias, keys)]
  }

  /** The choices Go leaves open in one run: two iterations of deviceMap, the index lookups, and the sort. */
  datatype Choices = Choices(gpuOrder: seq<string>, switchOrder: seq<string>, lookups: Lookups, sort: Sorter)

  ghost predicate ValidChoices(ix: Index, ch: Choices) {
    && IterationOf(ch.gpuOrder, ix.deviceMap.Keys) && IterationOf(ch.switchOrder, ix.deviceMap.Keys)
    && ValidLookups(ix, ch.lookups) && ValidSorter(ch.sort)
  }

  function AllJobs(ix: Index, aliases: Aliases, ch: Choices): seq<Job> {
    CategoryJobs(ix, aliases, ch.gpuOrder, ch.lookups, false)
    + CategoryJobs(ix, aliases, ch.switchOrder, ch.lookups, true)
  }

  // ---------------------------------------------------------------- running them

  function JobEntries(ix: Index, fd: bool, sort: Sorter, job: Job): seq<CdiDevice> {
    Entries(ix, fd, sort(job.keys))
  }

  /** One job: nothing to write without devices; a failed probe or a refused spec ends the run. */
  function RunJob(ix: Index, probe: Result<bool, string>, sort: Sorter, library: Library, job: Job,
                  specs: Specs): (Specs, Outcome) {
    if probe.Err? then (specs, Failed(job.class_))
    else
      var entries := JobEntries(ix, probe.value, sort, job);
      if entries == [] then (specs, Done)
      else if library(job.class_, entries) then (specs[job.class_ := entries], Done)
      else (specs, Failed(job.class_))
  }

  function RunJobs(ix: Index, probe: Result<bool, string>, sort: Sorter, library: Library, jobs: seq<Job>,
                   specs: Specs): (Specs, Outcome) {
    if jobs == [] then (specs, Done)
    else
      var (specs', outcome) := RunJob(ix, probe, sort, library, jobs[0], specs);
      if outcome == Done then RunJobs(ix, probe, sort, library, jobs[1..], specs') else (specs', outcome)
  }

  lemma {:induction false} RunConcat(ix: Index, probe: Result<bool, string>, sort: Sorter, library: Library,
                                     a: seq<Job>, b: seq<Job>, specs: Specs)
    ensures RunJobs(ix, probe, sort, library, a + b, specs) ==
            var (specs', outcome) := RunJobs(ix, probe, sort, library, a, specs);
            if outcome == Done then RunJobs(ix, probe, sort, library, b, specs') else (specs', outcome)
  {
    if a == [] {
      assert a + b == b;
    } else {
      assert (a + b)[1..] == a[1..] + b;
      RunConcat(ix, probe, sort, library, a[1..], b, RunJob(ix, probe, sort, library, a[0], specs).0);
    }
  }

  /** A completed run followed by one more job. */
  lemma RunSnoc(ix: Index, probe: Result<bool, string>, sort: Sorter, library: Library, a: seq<Job>, job: Job,
                specs: Specs)
    requires RunJobs(ix, probe, sort, library, a, specs).1 == Done
    ensures RunJobs(ix, probe, sort, library, a + [job], specs)
         == RunJob(ix, probe, sort, library, job, RunJobs(ix, probe, sort, library, a, specs).0)
  {
    RunConcat(ix, probe, sort, library, a, [job], specs);
    assert [job][1..] == [];
  }

  /** The jobs of the ids that are still to come. */
  ghost function PerIdSuffix(ix: Index, order: seq<string>, n: nat, lookups: Lookups, isSwitch: bool): (rest: seq<Job>)
    requires n <= |order|
    ensures PerIdJobs(ix, order, lookups, isSwitch) == PerIdJobs(ix, order[..n], lookups, isSwitch) + rest
    decreases |order|
  {
    if n == |order| then
      assert order[..n] == order;
      []
    else
      var init, id := order[..|order| - 1], order[|order| - 1];
      assert init[..n] == order[..n];
      PerIdSuffix(ix, init, n, lookups, isSwitch)
      + if InCategory(ix, id, isSwitch) then [Job(NameOrId(ix, lookups(id), id), ix.deviceMap[id])] else []
  }

  /** The spec directory as the CDI library keeps it: one file a class, a later write replacing an earlier one. */
  class CdiDirectory {
    var specs: Specs

    constructor ()
      ensures specs == map[]
    {
      specs := map[];
    }

    static method CollectBucket(fd: bool, iommuKey: string, devices: seq<NvDevice>)
      returns (deviceSpecs: seq<CdiDevice>)
      ensures deviceSpecs == BucketEntries(fd, iommuKey, devices)
    {
      deviceSpecs := [];
      for i := 0 to |devices|
        invariant deviceSpecs == BucketEntries(fd, iommuKey, devices[..i])
      {
        BucketEntriesSnoc(fd, iommuKey, devices[..i], devices[i]);
        assert devices[..i + 1] == devices[..i] + [devices[i]];
        deviceSpecs := deviceSpecs + [CdiDevice(iommuKey, NodesFor(fd, iommuKey, devices[i]))];
      }
      assert devices[..|devices|] == devices;
    }

    static method CollectEntries(ix: Index, fd: bool, sortedKeys: seq<string>) returns (deviceSpecs: seq<CdiDevice>)
      ensures deviceSpecs == Entries(ix, fd, sortedKeys)
    {
      deviceSpecs := [];
      for n := 0 to |sortedKeys|
        invariant deviceSpecs == Entries(ix, fd, sortedKeys[..n])
      {
        var entries := CollectBucket(fd, sortedKeys[n], BucketAt(ix, sortedKeys[n]));
        EntriesSnoc(ix, fd, sortedKeys[..n], sortedKeys[n]);
        assert sortedKeys[..n + 1] == sortedKeys[..n] + [sortedKeys[n]];
        deviceSpecs := deviceSpecs + entries;
      }
      assert sortedKeys[..|sortedKeys|] == sortedKeys;
    }

    method GenerateForClass(ix: Index, probe: Result<bool, string>, sort: Sorter, library: Library, class_: string,
                            keys: seq<string>)
      returns (outcome: Outcome)
      modifies this
      ensures (specs, outcome) == RunJob(ix, probe, sort, library, Job(class_, keys), old(specs))
    {
      if probe.Err? {
        return Failed(class_);
      }
      var deviceSpecs := CollectEntries(ix, probe.value, sort(keys));
      if deviceSpecs == [] {
        return Done;
      }
      if !library(class_, deviceSpecs) {
        return Failed(class_);
      }
      specs := specs[class_ := deviceSpecs];
      return Done;
    }

    /** One category: under its alias in one spec, or in one spec for each id. */
    method GenerateCategory(ix: Index, probe: Result<bool, string>, library: Library, aliases: Aliases,
                            order: seq<string>, ch: Choices, isSwitch: bool)
      returns (outcome: Outcome)
      modifies this
      ensures (specs, outcome)
           == RunJobs(ix, probe, ch.sort, library, CategoryJobs(ix, aliases, order, ch.lookups, isSwitch), old(specs))
    {
      var alias := aliases.For(isSwitch);
      if alias != "" {
        var keys: seq<string> := [];
        for n := 0 to |order|
          invariant keys == CategoryKeys(ix, order[..n], isSwitch) && specs == old(specs)
        {
          assert order[..n + 1][..n] == order[..n];
          if InCategory(ix, order[n], isSwitch) {
            keys := keys + ix.deviceMap[order[n]];
          }
        }
        assert order[..|order|] == order;
        if keys == [] {
          return Done;
        }
        outcome := GenerateForClass(ix, probe, ch.sort, library, alias, keys);
        return;
      }
      for n := 0 to |order|
        invariant (specs, Done) ==
                    RunJobs(ix, probe, ch.sort, library, PerIdJobs(ix, order[..n], ch.lookups, isSwitch), old(specs))
      {
        var deviceID := order[n];
        assert order[..n + 1][..n] == order[..n];
        if InCategory(ix, deviceID, isSwitch) {
          var className := NameOrId(ix, ch.lookups(deviceID), deviceID);
          RunSnoc(ix, probe, ch.sort, library, PerIdJobs(ix, order[..n], ch.lookups, isSwitch),
                  Job(className, ix.deviceMap[deviceID]), old(specs));
          outcome := GenerateForClass(ix, probe, ch.sort, library, className, ix.deviceMap[deviceID]);
          if outcome != Done {
            var rest := PerIdSuffix(ix, order, n + 1, ch.lookups, isSwitch);
            RunConcat(ix, probe, ch.sort, library, PerIdJobs(ix, order[..n + 1], ch.lookups, isSwitch), rest,
              old(specs));
            return;
          }
        } else {
          assert PerIdJobs(ix, order[..n + 1], ch.lookups, isSwitch) == PerIdJobs(ix, order[..n], ch.lookups, isSwitch);
        }
      }
      assert order[..|order|] == order;
      return Done;
    }

    method GenerateCDISpec(ix: Index, mkdirOk: bool, probe: Result<bool, string>, library: Library, aliases: Aliases,
                           ch: Choices)
      returns (outcome: Outcome)
      modifies this
      ensures ix.iommuMap == map[] ==> specs == old(specs) && outcome == Done
      ensures ix.iommuMap != map[] && !mkdirOk ==> specs == old(specs) && outcome == NoDirectory
      ensures ix.iommuMap != map[] && mkdirOk ==>
                (specs, outcome) == RunJobs(ix, probe, ch.sort, library, AllJobs(ix, aliases, ch), old(specs))
    {
      if ix.iommuMap == map[] {
        return Done;
      }
      if !mkdirOk {
        return NoDirectory;
      }
      RunConcat(ix, probe, ch.sort, library, CategoryJobs(ix, aliases, ch.gpuOrder, ch.lookups, false),
                CategoryJobs(ix, aliases, ch.switchOrder, ch.lookups, true), specs);
      outcome := GenerateCategory(ix, probe, library, aliases, ch.gpuOrder, ch, false);
      if outcome != Done {
        return;
      }
      outcome := GenerateCategory(ix, probe, library, aliases, ch.switchOrder, ch, true);
    }
  }
}
