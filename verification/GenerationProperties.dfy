/** What the generated specs guarantee: every discovered key is covered exactly once, nothing is lost unless two
    jobs share a class, and the written files do not depend on the choices Go leaves open. */
module GenerationProperties {
  import opened Cdi
  import opened Discovery
  import opened Generation
  import opened Naming
  import opened Sequences
  import opened Text

  // ---------------------------------------------------------------- the jobs partition the keys

  function JobKeys(jobs: seq<Job>): seq<string> {
    if jobs == [] then [] else JobKeys(jobs[..|jobs| - 1]) + jobs[|jobs| - 1].keys
  }

  lemma {:induction false} JobKeysConcat(a: seq<Job>, b: seq<Job>)
    ensures JobKeys(a + b) == JobKeys(a) + JobKeys(b)
  {
    if b == [] {
      assert a + b == a;
    } else {
      assert (a + b)[..|a + b| - 1] == a + b[..|b| - 1];
      JobKeysConcat(a, b[..|b| - 1]);
    }
  }

  lemma {:induction false} PerIdJobKeys(ix: Index, order: seq<string>, lookups: Lookups, isSwitch: bool)
    ensures JobKeys(PerIdJobs(ix, order, lookups, isSwitch)) == CategoryKeys(ix, order, isSwitch)
  {
    if order != [] {
      var init, id := order[..|order| - 1], order[|order| - 1];
      PerIdJobKeys(ix, init, lookups, isSwitch);
      if InCategory(ix, id, isSwitch) {
        var job := Job(NameOrId(ix, lookups(id), id), ix.deviceMap[id]);
        JobKeysConcat(PerIdJobs(ix, init, lookups, isSwitch), [job]);
        assert JobKeys([job]) == [] + job.keys;
      } else {
        assert PerIdJobs(ix, order, lookups, isSwitch) == PerIdJobs(ix, init, lookups, isSwitch);
        assert CategoryKeys(ix, order, isSwitch) == CategoryKeys(ix, init, isSwitch);
      }
    }
  }

  lemma CategoryJobKeys(ix: Index, aliases: Aliases, order: seq<string>, lookups: Lookups, isSwitch: bool)
    ensures JobKeys(CategoryJobs(ix, aliases, order, lookups, isSwitch)) == CategoryKeys(ix, order, isSwitch)
  {
    PerIdJobKeys(ix, order, lookups, isSwitch);
    var keys := CategoryKeys(ix, order, isSwitch);
    assert JobKeys([Job(aliases.For(isSwitch), keys)]) == [] + keys;
  }

  lemma {:induction false} CategoryMember(ix: Index, order: seq<string>, isSwitch: bool, k: string)
    ensures k in CategoryKeys(ix, order, isSwitch)
       <==> exists id | id in order :: InCategory(ix, id, isSwitch) && Lists(ix, id, k)
  {
    if order != [] {
      CategoryMember(ix, order[..|order| - 1], isSwitch, k);
      assert forall id :: id in order <==> id in order[..|order| - 1] || id == order[|order| - 1];
      assert Lists(ix, order[|order| - 1], k) ==> order[|order| - 1] in ix.deviceMap;
    }
  }

  lemma {:induction false} CategoryNoDup(ix: Index, order: seq<string>, isSwitch: bool)
    requires Partitioned(ix) && NoDup(order)
    ensures NoDup(CategoryKeys(ix, order, isSwitch))
  {
    if order != [] {
      var init, id := order[..|order| - 1], order[|order| - 1];
      CategoryNoDup(ix, init, isSwitch);
      if InCategory(ix, id, isSwitch) {
        forall k | k in CategoryKeys(ix, init, isSwitch) ensures k !in ix.deviceMap[id] {
          CategoryMember(ix, init, isSwitch, k);
          var id' :| id' in init && InCategory(ix, id', isSwitch) && Lists(ix, id', k);
          assert Lists(ix, id, k) ==> id == id';
        }
        NoDupConcat(CategoryKeys(ix, init, isSwitch), ix.deviceMap[id]);
      }
    }
  }

  lemma KeyCategory(ix: Index, order: seq<string>, isSwitch: bool, id: string, k: string)
    requires Partitioned(ix) && IterationOf(order, ix.deviceMap.Keys) && Lists(ix, id, k)
    ensures k in CategoryKeys(ix, order, isSwitch) <==> (id in ix.nvSwitchDeviceIDs) == isSwitch
  {
    CategoryMember(ix, order, isSwitch, k);
  }

  /** Whatever the aliases and the orders, the jobs together name every discovered key exactly once. */
  lemma JobsCoverKeysOnce(ix: Index, aliases: Aliases, ch: Choices)
    requires Partitioned(ix) && ValidChoices(ix, ch)
    ensures IterationOf(JobKeys(AllJobs(ix, aliases, ch)), ix.iommuMap.Keys)
  {
    var gpu, switch := CategoryKeys(ix, ch.gpuOrder, false), CategoryKeys(ix, ch.switchOrder, true);
    CategoryJobKeys(ix, aliases, ch.gpuOrder, ch.lookups, false);
    CategoryJobKeys(ix, aliases, ch.switchOrder, ch.lookups, true);
    JobKeysConcat(CategoryJobs(ix, aliases, ch.gpuOrder, ch.lookups, false),
                  CategoryJobs(ix, aliases, ch.switchOrder, ch.lookups, true));
    CategoryNoDup(ix, ch.gpuOrder, false);
    CategoryNoDup(ix, ch.switchOrder, true);
    forall k ensures k in gpu ==> k !in switch
             ensures k in gpu + switch <==> k in ix.iommuMap {
      CategoryMember(ix, ch.gpuOrder, false, k);
      CategoryMember(ix, ch.switchOrder, true, k);
      if k in ix.iommuMap {
        var id :| Lists(ix, id, k);
        KeyCategory(ix, ch.gpuOrder, false, id, k);
        KeyCategory(ix, ch.switchOrder, true, id, k);
      }
    }
    NoDupConcat(gpu, switch);
  }

  lemma {:induction false} JobKeysMember(jobs: seq<Job>, k: string)
    ensures k in JobKeys(jobs) <==> exists i | 0 <= i < |jobs| :: k in jobs[i].keys
  {
    if jobs != [] {
      JobKeysMember(jobs[..|jobs| - 1], k);
    }
  }

  lemma {:induction false} JobKeysDisjoint(jobs: seq<Job>)
    requires NoDup(JobKeys(jobs))
    ensures forall i | 0 <= i < |jobs| :: NoDup(jobs[i].keys)
    ensures forall i, j, k | 0 <= i < j < |jobs| && k in jobs[i].keys :: k !in jobs[j].keys
  {
    if jobs != [] {
      var init, last := jobs[..|jobs| - 1], jobs[|jobs| - 1];
      var a, b := JobKeys(init), last.keys;
      assert forall p | 0 <= p < |a| :: a[p] == JobKeys(jobs)[p];
      assert forall p | 0 <= p < |b| :: b[p] == JobKeys(jobs)[|a| + p];
      JobKeysDisjoint(init);
      forall k | k in a ensures k !in b {}
      forall i, k | 0 <= i < |init| && k in init[i].keys ensures k in a {
        JobKeysMember(init, k);
      }
    }
  }

  // ---------------------------------------------------------------- no job is empty

  lemma {:induction false} PerIdJobsNonEmpty(ix: Index, order: seq<string>, lookups: Lookups, isSwitch: bool)
    requires Partitioned(ix)
    ensures forall i | 0 <= i < |PerIdJobs(ix, order, lookups, isSwitch)| ::
              PerIdJobs(ix, order, lookups, isSwitch)[i].keys != []
  {
    if order != [] {
      PerIdJobsNonEmpty(ix, order[..|order| - 1], lookups, isSwitch);
    }
  }

  ghost predicate WellFormedJobs(ix: Index, jobs: seq<Job>) {
    && IterationOf(JobKeys(jobs), ix.iommuMap.Keys)
    && forall i | 0 <= i < |jobs| :: jobs[i].keys != []
  }

  lemma AllJobsWellFormed(ix: Index, aliases: Aliases, ch: Choices)
    requires Partitioned(ix) && ValidChoices(ix, ch)
    ensures WellFormedJobs(ix, AllJobs(ix, aliases, ch))
  {
    JobsCoverKeysOnce(ix, aliases, ch);
    PerIdJobsNonEmpty(ix, ch.gpuOrder, ch.lookups, false);
    PerIdJobsNonEmpty(ix, ch.switchOrder, ch.lookups, true);
  }

  lemma SortedJob(ix: Index, jobs: seq<Job>, i: nat, sort: Sorter)
    requires Partitioned(ix) && WellFormedJobs(ix, jobs) && ValidSorter(sort) && i < |jobs|
    ensures NoDup(sort(jobs[i].keys)) && SameElements(sort(jobs[i].keys), jobs[i].keys)
    ensures forall k | k in jobs[i].keys :: k in ix.iommuMap
  {
    JobKeysDisjoint(jobs);
    assert IsSortOf(jobs[i].keys, sort(jobs[i].keys));
    PermutationNoDup(jobs[i].keys, sort(jobs[i].keys));
    SameElementsOfPermutation(jobs[i].keys, sort(jobs[i].keys));
    forall k | k in jobs[i].keys ensures k in ix.iommuMap {
      JobKeysMember(jobs, k);
    }
  }

  /** The entries of a job: as many under a name as its bucket has devices, and as many in all as its buckets. */
  lemma JobEntriesCount(ix: Index, fd: bool, jobs: seq<Job>, i: nat, sort: Sorter, name: string)
    requires Partitioned(ix) && WellFormedJobs(ix, jobs) && ValidSorter(sort) && i < |jobs|
    ensures CountNamed(JobEntries(ix, fd, sort, jobs[i]), name) ==
              if name in jobs[i].keys then |BucketAt(ix, name)| else 0
    ensures |JobEntries(ix, fd, sort, jobs[i])| == Sum(SizeIn(ix), jobs[i].keys) > 0
  {
    SortedJob(ix, jobs, i, sort);
    var keys := jobs[i].keys;
    EntriesCount(ix, fd, sort(keys), name);
    EntriesTotal(ix, fd, sort(keys));
    assert IsSortOf(keys, sort(keys));
    SumPermutation(SizeIn(ix), keys, sort(keys));
    assert keys[0] in keys && ix.iommuMap[keys[0]] != [];
  }

  // ---------------------------------------------------------------- what a completed run has written

  ghost predicate DistinctClasses(jobs: seq<Job>) {
    forall i, j | 0 <= i < j < |jobs| :: jobs[i].class_ != jobs[j].class_
  }

  ghost predicate HasClass(jobs: seq<Job>, c: string) {
    exists i | 0 <= i < |jobs| :: jobs[i].class_ == c
  }

  lemma HasClassSplit(jobs: seq<Job>, c: string)
    requires jobs != []
    ensures HasClass(jobs, c) <==> jobs[0].class_ == c || HasClass(jobs[1..], c)
  {
    if i :| 0 <= i < |jobs[1..]| && jobs[1..][i].class_ == c {
      assert jobs[i + 1].class_ == c;
    }
    if i :| 0 <= i < |jobs| && jobs[i].class_ == c {
      assert i > 0 ==> jobs[1..][i - 1].class_ == c;
    }
  }

  ghost predicate Completes(ix: Index, fd: bool, sort: Sorter, library: Library, jobs: seq<Job>, specs: Specs) {
    RunJobs(ix, Ok(fd), sort, library, jobs, specs).1 == Done
  }

  function Final(ix: Index, fd: bool, sort: Sorter, library: Library, jobs: seq<Job>, specs: Specs): Specs {
    RunJobs(ix, Ok(fd), sort, library, jobs, specs).0
  }

  ghost predicate NothingEmpty(ix: Index, fd: bool, sort: Sorter, jobs: seq<Job>) {
    forall i | 0 <= i < |jobs| :: JobEntries(ix, fd, sort, jobs[i]) != []
  }

  lemma FirstJob(ix: Index, fd: bool, sort: Sorter, library: Library, jobs: seq<Job>, specs: Specs)
    requires jobs != [] && NothingEmpty(ix, fd, sort, jobs) && Completes(ix, fd, sort, library, jobs, specs)
    ensures var specs' := specs[jobs[0].class_ := JobEntries(ix, fd, sort, jobs[0])];
            && Completes(ix, fd, sort, library, jobs[1..], specs') && NothingEmpty(ix, fd, sort, jobs[1..])
            && Final(ix, fd, sort, library, jobs, specs) == Final(ix, fd, sort, library, jobs[1..], specs')
  {
    assert jobs[0] == jobs[..][0];
    assert forall i | 0 <= i < |jobs[1..]| :: jobs[1..][i] == jobs[i + 1];
  }

  /** A completed run adds the classes of its jobs and leaves the specs of other classes alone. */
  lemma {:induction false} RunTouches(ix: Index, fd: bool, sort: Sorter, library: Library, jobs: seq<Job>,
                                      specs: Specs, c: string)
    requires NothingEmpty(ix, fd, sort, jobs) && Completes(ix, fd, sort, library, jobs, specs)
    ensures c in Final(ix, fd, sort, library, jobs, specs) <==> c in specs || HasClass(jobs, c)
    ensures c in specs && !HasClass(jobs, c) ==> Final(ix, fd, sort, library, jobs, specs)[c] == specs[c]
  {
    if jobs != [] {
      FirstJob(ix, fd, sort, library, jobs, specs);
      HasClassSplit(jobs, c);
      RunTouches(ix, fd, sort, library, jobs[1..], specs[jobs[0].class_ := JobEntries(ix, fd, sort, jobs[0])], c);
    }
  }

  /** A class ends up with the entries of the last job that has it. */
  lemma {:induction false} LastJobWins(ix: Index, fd: bool, sort: Sorter, library: Library, jobs: seq<Job>,
                                       specs: Specs, i: nat)
    requires NothingEmpty(ix, fd, sort, jobs) && Completes(ix, fd, sort, library, jobs, specs)
    requires i < |jobs| && forall j | i < j < |jobs| :: jobs[j].class_ != jobs[i].class_
    ensures jobs[i].class_ in Final(ix, fd, sort, library, jobs, specs)
    ensures Final(ix, fd, sort, library, jobs, specs)[jobs[i].class_] == JobEntries(ix, fd, sort, jobs[i])
  {
    var specs', rest := specs[jobs[0].class_ := JobEntries(ix, fd, sort, jobs[0])], jobs[1..];
    FirstJob(ix, fd, sort, library, jobs, specs);
    if i == 0 {
      forall j | 0 <= j < |rest| ensures rest[j].class_ != jobs[0].class_ {
        assert rest[j] == jobs[j + 1];
      }
      RunTouches(ix, fd, sort, library, rest, specs', jobs[0].class_);
    } else {
      assert rest[i - 1] == jobs[i];
      LastJobWins(ix, fd, sort, library, rest, specs', i - 1);
    }
  }

  /** One spec a job, its entries counted by bucket. */
  lemma SpecOfJob(ix: Index, fd: bool, sort: Sorter, library: Library, jobs: seq<Job>, i: nat, name: string)
    requires Partitioned(ix) && WellFormedJobs(ix, jobs) && ValidSorter(sort) && DistinctClasses(jobs) && i < |jobs|
    requires Completes(ix, fd, sort, library, jobs, map[])
    ensures NothingEmpty(ix, fd, sort, jobs)
    ensures var specs := Final(ix, fd, sort, library, jobs, map[]);
            jobs[i].class_ in specs && specs[jobs[i].class_] != []
            && CountNamed(specs[jobs[i].class_], name) == if name in jobs[i].keys then |BucketAt(ix, name)| else 0
  {
    forall n | 0 <= n < |jobs| ensures JobEntries(ix, fd, sort, jobs[n]) != [] {
      JobEntriesCount(ix, fd, jobs, n, sort, name);
    }
    JobEntriesCount(ix, fd, jobs, i, sort, name);
    LastJobWins(ix, fd, sort, library, jobs, map[], i);
  }

  /** Coverage: into an empty directory, with distinct classes, every discovered key stands in exactly one spec,
      with one entry for each device of its bucket; no spec is empty. */
  lemma SpecsCoverDevices(ix: Index, fd: bool, aliases: Aliases, ch: Choices, library: Library, k: string)
    returns (i: nat)
    requires Partitioned(ix) && ValidChoices(ix, ch) && DistinctClasses(AllJobs(ix, aliases, ch)) && k in ix.iommuMap
    requires Completes(ix, fd, ch.sort, library, AllJobs(ix, aliases, ch), map[])
    ensures i < |AllJobs(ix, aliases, ch)| && k in AllJobs(ix, aliases, ch)[i].keys
    ensures var specs := Final(ix, fd, ch.sort, library, AllJobs(ix, aliases, ch), map[]);
            var class_ := AllJobs(ix, aliases, ch)[i].class_;
            && class_ in specs && CountNamed(specs[class_], k) == |ix.iommuMap[k]| > 0
            && (forall c | c in specs && c != class_ :: CountNamed(specs[c], k) == 0)
            && (forall c | c in specs :: specs[c] != [])
  {
    var jobs := AllJobs(ix, aliases, ch);
    var specs := Final(ix, fd, ch.sort, library, jobs, map[]);
    AllJobsWellFormed(ix, aliases, ch);
    JobKeysMember(jobs, k);
    JobKeysDisjoint(jobs);
    i :| 0 <= i < |jobs| && k in jobs[i].keys;
    SpecOfJob(ix, fd, ch.sort, library, jobs, i, k);
    forall c | c in specs ensures specs[c] != [] && (c != jobs[i].class_ ==> CountNamed(specs[c], k) == 0) {
      RunTouches(ix, fd, ch.sort, library, jobs, map[], c);
      var n :| 0 <= n < |jobs| && jobs[n].class_ == c;
      SpecOfJob(ix, fd, ch.sort, library, jobs, n, k);
    }
  }

  /** How many of the jobs are for GPUs; they come first. */
  function GpuCount(ix: Index, aliases: Aliases, ch: Choices): nat {
    |CategoryJobs(ix, aliases, ch.gpuOrder, ch.lookups, false)|
  }

  /** Jobs before the boundary are GPU jobs, those after it NVSwitch jobs. */
  lemma SameJobSameCategory(ix: Index, aliases: Aliases, ch: Choices, i: nat, id: string, k: string)
    requires Partitioned(ix) && ValidChoices(ix, ch) && i < |AllJobs(ix, aliases, ch)|
    requires Lists(ix, id, k) && k in AllJobs(ix, aliases, ch)[i].keys
    ensures id in ix.nvSwitchDeviceIDs <==> i >= GpuCount(ix, aliases, ch)
  {
    var gpu := CategoryJobs(ix, aliases, ch.gpuOrder, ch.lookups, false);
    var switch := CategoryJobs(ix, aliases, ch.switchOrder, ch.lookups, true);
    if i < |gpu| {
      assert k in gpu[i].keys;
      JobKeysMember(gpu, k);
      CategoryJobKeys(ix, aliases, ch.gpuOrder, ch.lookups, false);
      KeyCategory(ix, ch.gpuOrder, false, id, k);
    } else {
      assert k in switch[i - |gpu|].keys;
      JobKeysMember(switch, k);
      CategoryJobKeys(ix, aliases, ch.switchOrder, ch.lookups, true);
      KeyCategory(ix, ch.switchOrder, true, id, k);
    }
  }

  ghost predicate WrittenBy(ix: Index, probe: Result<bool, string>, sort: Sorter, job: Job, c: string,
                            entries: seq<CdiDevice>) {
    probe.Ok? && job.class_ == c && entries == JobEntries(ix, probe.value, sort, job) && entries != []
  }

  /** Whether or not the run completes, a spec it leaves was there before or holds the entries of one job, and some. */
  lemma {:induction false} LeftByJob(ix: Index, probe: Result<bool, string>, sort: Sorter, library: Library,
                                     jobs: seq<Job>,
                                     specs: Specs, c: string)
    requires c in RunJobs(ix, probe, sort, library, jobs, specs).0
    ensures var entries := RunJobs(ix, probe, sort, library, jobs, specs).0[c];
            || (c in specs && entries == specs[c])
            || exists i | 0 <= i < |jobs| :: WrittenBy(ix, probe, sort, jobs[i], c, entries)
  {
    if jobs != [] {
      var (specs', outcome) := RunJob(ix, probe, sort, library, jobs[0], specs);
      if outcome == Done {
        LeftByJob(ix, probe, sort, library, jobs[1..], specs', c);
        var entries := RunJobs(ix, probe, sort, library, jobs, specs).0[c];
        if i :| 0 <= i < |jobs[1..]| && WrittenBy(ix, probe, sort, jobs[1..][i], c, entries) {
          assert WrittenBy(ix, probe, sort, jobs[i + 1], c, entries);
        } else {
          assert c in specs' && entries == specs'[c];
          assert (c in specs && entries == specs[c]) || WrittenBy(ix, probe, sort, jobs[0], c, entries);
        }
      }
    }
  }

  /** Into an empty directory, whatever the classes and whether or not the run completes: no empty spec is written,
      and the keys in one spec are listed under GPU ids only or under NVSwitch ids only. */
  lemma SpecsSeparateCategories(ix: Index, probe: Result<bool, string>, aliases: Aliases, ch: Choices,
                                library: Library, c: string,
                                k: string, k': string, id: string, id': string)
    requires Partitioned(ix) && ValidChoices(ix, ch)
    requires c in RunJobs(ix, probe, ch.sort, library, AllJobs(ix, aliases, ch), map[]).0
    ensures var entries := RunJobs(ix, probe, ch.sort, library, AllJobs(ix, aliases, ch), map[]).0[c];
            && entries != []
            && (CountNamed(entries, k) > 0 && CountNamed(entries, k') > 0 && Lists(ix, id, k) && Lists(ix, id', k') ==>
                  (id in ix.nvSwitchDeviceIDs <==> id' in ix.nvSwitchDeviceIDs))
  {
    var jobs := AllJobs(ix, aliases, ch);
    var entries := RunJobs(ix, probe, ch.sort, library, jobs, map[]).0[c];
    LeftByJob(ix, probe, ch.sort, library, jobs, map[], c);
    var i :| 0 <= i < |jobs| && WrittenBy(ix, probe, ch.sort, jobs[i], c, entries);
    AllJobsWellFormed(ix, aliases, ch);
    JobEntriesCount(ix, probe.value, jobs, i, ch.sort, k);
    JobEntriesCount(ix, probe.value, jobs, i, ch.sort, k');
    if CountNamed(entries, k) > 0 && CountNamed(entries, k') > 0 && Lists(ix, id, k) && Lists(ix, id', k') {
      SameJobSameCategory(ix, aliases, ch, i, id, k);
      SameJobSameCategory(ix, aliases, ch, i, id', k');
    }
  }

  /** And within a spec the entries stand in ascending order of the numbers read from their names. */
  lemma SpecsAscend(ix: Index, probe: Result<bool, string>, aliases: Aliases, ch: Choices, library: Library, c: string,
                    i: nat, j: nat)
    requires ValidChoices(ix, ch) && c in RunJobs(ix, probe, ch.sort, library, AllJobs(ix, aliases, ch), map[]).0
    requires i < j < |RunJobs(ix, probe, ch.sort, library, AllJobs(ix, aliases, ch), map[]).0[c]|
    ensures var entries := RunJobs(ix, probe, ch.sort, library, AllJobs(ix, aliases, ch), map[]).0[c];
            ExtractNumber(entries[i].name) <= ExtractNumber(entries[j].name)
  {
    var jobs := AllJobs(ix, aliases, ch);
    LeftByJob(ix, probe, ch.sort, library, jobs, map[], c);
    var n :| 0 <= n < |jobs|
             && WrittenBy(ix, probe, ch.sort, jobs[n], c, RunJobs(ix, probe, ch.sort, library, jobs, map[]).0[c]);
    SortedEntriesAscend(ix, probe.value, ch.sort, jobs[n].keys, i, j);
  }

  // ---------------------------------------------------------------- conservation

  function SpecSize(specs: Specs): string -> nat {
    c => if c in specs then |specs[c]| else 0
  }

  function TotalEntries(ix: Index, fd: bool, sort: Sorter, jobs: seq<Job>): nat {
    if jobs == [] then 0 else |JobEntries(ix, fd, sort, jobs[0])| + TotalEntries(ix, fd, sort, jobs[1..])
  }

  ghost predicate ClassesFresh(jobs: seq<Job>, specs: Specs) {
    DistinctClasses(jobs) && forall i | 0 <= i < |jobs| :: jobs[i].class_ !in specs
  }

  lemma ClassesFreshSplit(jobs: seq<Job>, specs: Specs, entries: seq<CdiDevice>)
    requires jobs != []
    ensures ClassesFresh(jobs, specs) <==>
            jobs[0].class_ !in specs && ClassesFresh(jobs[1..], specs[jobs[0].class_ := entries])
  {
    var rest := jobs[1..];
    assert forall i | 0 <= i < |rest| :: rest[i] == jobs[i + 1];
    if jobs[0].class_ !in specs && ClassesFresh(rest, specs[jobs[0].class_ := entries]) {
      forall i, j | 0 <= i < j < |jobs| ensures jobs[i].class_ != jobs[j].class_ {
        assert rest[j - 1] == jobs[j] && (i > 0 ==> rest[i - 1] == jobs[i]);
      }
    }
  }

  /** A completed run keeps every entry it generates exactly when no write replaces another. */
  lemma {:induction false} SizesAfterRun(ix: Index, fd: bool, sort: Sorter, library: Library, jobs: seq<Job>,
                                         specs: Specs, order: seq<string>)
    requires NothingEmpty(ix, fd, sort, jobs) && Completes(ix, fd, sort, library, jobs, specs)
    requires NoDup(order) && (forall i | 0 <= i < |jobs| :: jobs[i].class_ in order)
    requires forall c | c in specs :: specs[c] != []
    ensures var before := Sum(SpecSize(specs), order);
            var after := Sum(SpecSize(Final(ix, fd, sort, library, jobs, specs)), order);
            && after <= before + TotalEntries(ix, fd, sort, jobs)
            && (after == before + TotalEntries(ix, fd, sort, jobs) <==> ClassesFresh(jobs, specs))
  {
    if jobs != [] {
      var entries := JobEntries(ix, fd, sort, jobs[0]);
      var specs' := specs[jobs[0].class_ := entries];
      FirstJob(ix, fd, sort, library, jobs, specs);
      ClassesFreshSplit(jobs, specs, entries);
      assert forall i | 0 <= i < |jobs[1..]| :: jobs[1..][i] == jobs[i + 1];
      SizesAfterRun(ix, fd, sort, library, jobs[1..], specs', order);
      SumPoint(SpecSize(specs), SpecSize(specs'), order, jobs[0].class_);
    }
  }

  lemma JobKeysCons(job: Job, rest: seq<Job>)
    ensures JobKeys([job] + rest) == job.keys + JobKeys(rest)
  {
    JobKeysConcat([job], rest);
    assert [job][..0] == [];
    assert JobKeys([job]) == [] + job.keys;
  }

  lemma JobSize(ix: Index, fd: bool, sort: Sorter, job: Job)
    requires ValidSorter(sort)
    ensures |JobEntries(ix, fd, sort, job)| == Sum(SizeIn(ix), job.keys)
  {
    EntriesTotal(ix, fd, sort(job.keys));
    assert IsSortOf(job.keys, sort(job.keys));
    SumPermutation(SizeIn(ix), job.keys, sort(job.keys));
  }

  lemma {:induction false} TotalIsSizes(ix: Index, fd: bool, sort: Sorter, jobs: seq<Job>)
    requires ValidSorter(sort)
    ensures TotalEntries(ix, fd, sort, jobs) == Sum(SizeIn(ix), JobKeys(jobs))
  {
    if jobs != [] {
      TotalIsSizes(ix, fd, sort, jobs[1..]);
      JobSize(ix, fd, sort, jobs[0]);
      JobKeysCons(jobs[0], jobs[1..]);
      assert jobs == [jobs[0]] + jobs[1..];
      SumConcat(SizeIn(ix), jobs[0].keys, JobKeys(jobs[1..]));
    }
  }

  lemma AllNothingEmpty(ix: Index, fd: bool, aliases: Aliases, ch: Choices)
    requires Partitioned(ix) && ValidChoices(ix, ch)
    ensures NothingEmpty(ix, fd, ch.sort, AllJobs(ix, aliases, ch))
  {
    var jobs := AllJobs(ix, aliases, ch);
    AllJobsWellFormed(ix, aliases, ch);
    forall i | 0 <= i < |jobs| ensures JobEntries(ix, fd, ch.sort, jobs[i]) != [] {
      JobEntriesCount(ix, fd, jobs, i, ch.sort, "");
    }
  }

  /** Conservation: the written specs hold as many entries as there are eligible devices exactly when the
      classes are distinct; otherwise a later spec has replaced an earlier one and devices are missing. */
  lemma EntriesConserved(ix: Index, fd: bool, devs: seq<PciDevice>, aliases: Aliases, ch: Choices, library: Library,
                         order: seq<string>)
    requires SpecifiedBy(ix, fd, devs) && ValidChoices(ix, ch)
    requires Completes(ix, fd, ch.sort, library, AllJobs(ix, aliases, ch), map[])
    requires IterationOf(order, Final(ix, fd, ch.sort, library, AllJobs(ix, aliases, ch), map[]).Keys)
    ensures var total := Sum(SpecSize(Final(ix, fd, ch.sort, library, AllJobs(ix, aliases, ch), map[])), order);
            && total <= |EligibleDevices(devs)|
            && (total == |EligibleDevices(devs)| <==> DistinctClasses(AllJobs(ix, aliases, ch)))
  {
    var jobs := AllJobs(ix, aliases, ch);
    DiscoveryPartitions(ix, fd, devs);
    AllNothingEmpty(ix, fd, aliases, ch);
    forall i | 0 <= i < |jobs| ensures jobs[i].class_ in order {
      RunTouches(ix, fd, ch.sort, library, jobs, map[], jobs[i].class_);
    }
    SizesAfterRun(ix, fd, ch.sort, library, jobs, map[], order);
    AllZero(SpecSize(map[]), order);
    TotalIsSizes(ix, fd, ch.sort, jobs);
    JobsCoverKeysOnce(ix, aliases, ch);
    DevicesConserved(ix, fd, devs, JobKeys(jobs));
  }

  // ---------------------------------------------------------------- refusals

  ghost predicate Accepted(ix: Index, fd: bool, sort: Sorter, library: Library, job: Job) {
    library(job.class_, JobEntries(ix, fd, sort, job))
  }

  lemma {:induction false} CompletesIff(ix: Index, fd: bool, sort: Sorter, library: Library, jobs: seq<Job>,
                                        specs: Specs)
    requires NothingEmpty(ix, fd, sort, jobs)
    ensures Completes(ix, fd, sort, library, jobs, specs)
       <==> forall i | 0 <= i < |jobs| :: Accepted(ix, fd, sort, library, jobs[i])
  {
    if jobs != [] {
      assert forall i | 0 <= i < |jobs[1..]| :: jobs[1..][i] == jobs[i + 1];
      CompletesIff(ix, fd, sort, library, jobs[1..], specs[jobs[0].class_ := JobEntries(ix, fd, sort, jobs[0])]);
      if Accepted(ix, fd, sort, library, jobs[0]) {
        assert Completes(ix, fd, sort, library, jobs, specs) ==
               Completes(ix, fd, sort, library, jobs[1..], specs[jobs[0].class_ := JobEntries(ix, fd, sort, jobs[0])]);
        if forall i | 0 <= i < |jobs[1..]| :: Accepted(ix, fd, sort, library, jobs[1..][i]) {
          forall i | 0 <= i < |jobs| ensures Accepted(ix, fd, sort, library, jobs[i]) {
            assert i > 0 ==> jobs[1..][i - 1] == jobs[i];
          }
        }
      }
    }
  }

  /** A failed probe ends the run at its first job, with nothing written. */
  lemma FailedProbeStops(ix: Index, cause: string, sort: Sorter, library: Library, jobs: seq<Job>, specs: Specs)
    requires jobs != []
    ensures RunJobs(ix, Err(cause), sort, library, jobs, specs) == (specs, Failed(jobs[0].class_))
  {}

  /** A run performs its jobs up to the first that is refused, reports that one, and keeps what it has written. */
  lemma {:induction false} RunStops(ix: Index, fd: bool, sort: Sorter, library: Library, jobs: seq<Job>, specs: Specs)
    returns (n: nat)
    requires NothingEmpty(ix, fd, sort, jobs)
    ensures n <= |jobs| && forall i | 0 <= i < n :: Accepted(ix, fd, sort, library, jobs[i])
    ensures var (specs', outcome) := RunJobs(ix, Ok(fd), sort, library, jobs, specs);
            && specs' == Final(ix, fd, sort, library, jobs[..n], specs)
            && Completes(ix, fd, sort, library, jobs[..n], specs)
            && if n == |jobs| then outcome == Done
               else !Accepted(ix, fd, sort, library, jobs[n]) && outcome == Failed(jobs[n].class_)
  {
    n := 0;
    if jobs != [] && Accepted(ix, fd, sort, library, jobs[0]) {
      var specs' := specs[jobs[0].class_ := JobEntries(ix, fd, sort, jobs[0])];
      assert forall i | 0 <= i < |jobs[1..]| :: jobs[1..][i] == jobs[i + 1];
      n := RunStops(ix, fd, sort, library, jobs[1..], specs');
      n := n + 1;
      assert jobs[..n][1..] == jobs[1..][..n - 1];
      assert RunJobs(ix, Ok(fd), sort, library, jobs[..n], specs)
          == RunJobs(ix, Ok(fd), sort, library, jobs[1..][..n - 1], specs');
    } else if jobs != [] {
      assert jobs[..0] == [];
    }
  }

  // ---------------------------------------------------------------- independence of the open choices

  /** No two discovered keys are read as the same number. */
  ghost predicate KeysTellApart(ix: Index) {
    forall k, k' | k in ix.iommuMap && k' in ix.iommuMap && k != k' :: ExtractNumber(k) != ExtractNumber(k')
  }

  /** Decimal keys within the machine range are told apart; so in legacy mode every index is. */
  lemma DecimalKeysTellApart(ix: Index)
    requires forall k | k in ix.iommuMap :: exists n: GoInt :: k == Itoa(n)
    ensures KeysTellApart(ix)
  {
    forall k, k' | k in ix.iommuMap && k' in ix.iommuMap && k != k' ensures ExtractNumber(k) != ExtractNumber(k') {
      var n: GoInt :| k == Itoa(n);
      var n': GoInt :| k' == Itoa(n');
      DecimalReads(n);
      DecimalReads(n');
    }
  }

  lemma LegacyKeysTellApart(ix: Index, devs: seq<PciDevice>)
    requires SpecifiedBy(ix, false, devs)
    ensures KeysTellApart(ix)
  {
    forall k | k in ix.iommuMap ensures exists n: GoInt :: k == Itoa(n) {
      var i :| 0 <= i < |devs| && HasKey(false, devs, i, k);
      assert k == Itoa(devs[i].iommuGroup);
    }
    DecimalKeysTellApart(ix);
  }

  ghost predicate SameWork(j: Job, j': Job) {
    j.class_ == j'.class_ && SameElements(j.keys, j'.keys)
  }

  lemma SameWorkSameEntries(ix: Index, fd: bool, sort: Sorter, sort': Sorter, j: Job, j': Job)
    requires DistinctNumbers(j.keys) && ValidSorter(sort) && ValidSorter(sort') && SameWork(j, j')
    requires NoDup(j.keys) && NoDup(j'.keys)
    ensures JobEntries(ix, fd, sort, j) == JobEntries(ix, fd, sort', j')
  {
    assert IsSortOf(j.keys, sort(j.keys)) && IsSortOf(j'.keys, sort'(j'.keys));
    SortsCoincide(j.keys, j'.keys, sort(j.keys), sort'(j'.keys));
  }

  lemma KeysDistinctNumbers(ix: Index, keys: seq<string>)
    requires KeysTellApart(ix) && NoDup(keys) && forall k | k in keys :: k in ix.iommuMap
    ensures DistinctNumbers(keys)
  {
    forall a, b | 0 <= a < b < |keys| ensures ExtractNumber(keys[a]) != ExtractNumber(keys[b]) {
      assert keys[a] in keys && keys[b] in keys;
    }
  }

  lemma CategoryKeysSame(ix: Index, order: seq<string>, order': seq<string>, isSwitch: bool)
    requires IterationOf(order, ix.deviceMap.Keys) && IterationOf(order', ix.deviceMap.Keys)
    ensures SameElements(CategoryKeys(ix, order, isSwitch), CategoryKeys(ix, order', isSwitch))
  {
    forall k ensures k in CategoryKeys(ix, order, isSwitch) <==> k in CategoryKeys(ix, order', isSwitch) {
      CategoryMember(ix, order, isSwitch, k);
      CategoryMember(ix, order', isSwitch, k);
    }
  }

  function JobFor(ix: Index, lookups: Lookups, id: string): Job
    requires id in ix.deviceMap
  {
    Job(NameOrId(ix, lookups(id), id), ix.deviceMap[id])
  }

  lemma {:induction false} PerIdJobsMember(ix: Index, order: seq<string>, lookups: Lookups, isSwitch: bool, job: Job)
    ensures job in PerIdJobs(ix, order, lookups, isSwitch)
       <==> exists id | id in order :: InCategory(ix, id, isSwitch) && job == JobFor(ix, lookups, id)
  {
    if order != [] {
      var init, id := order[..|order| - 1], order[|order| - 1];
      PerIdJobsMember(ix, init, lookups, isSwitch, job);
      assert forall x :: x in order <==> x in init || x == id;
      assert InCategory(ix, id, isSwitch) ==>
        PerIdJobs(ix, order, lookups, isSwitch) == PerIdJobs(ix, init, lookups, isSwitch) + [JobFor(ix, lookups, id)];
    }
  }

  /** Where a category has no alias, the buckets agree on the name of each of its ids. */
  ghost predicate NamesSettled(ix: Index, aliases: Aliases) {
    forall id | id in ix.deviceMap && aliases.For(id in ix.nvSwitchDeviceIDs) == "" :: NamesAgree(ix, id)
  }

  lemma SingleJob(ix: Index, probe: Result<bool, string>, sort: Sorter, library: Library, job: Job, specs: Specs)
    ensures RunJobs(ix, probe, sort, library, [job], specs) == RunJob(ix, probe, sort, library, job, specs)
  {
    RunSnoc(ix, probe, sort, library, [], job, specs);
    assert [] + [job] == [job];
  }

  lemma SameWorkSameRun(ix: Index, probe: Result<bool, string>, sort: Sorter, sort': Sorter, library: Library, j: Job,
                        j': Job, specs: Specs)
    requires KeysTellApart(ix) && ValidSorter(sort) && ValidSorter(sort') && SameWork(j, j')
    requires NoDup(j.keys) && NoDup(j'.keys) && forall k | k in j.keys :: k in ix.iommuMap
    ensures RunJobs(ix, probe, sort, library, [j], specs) == RunJobs(ix, probe, sort', library, [j'], specs)
  {
    KeysDistinctNumbers(ix, j.keys);
    if probe.Ok? {
      SameWorkSameEntries(ix, probe.value, sort, sort', j, j');
    }
    SingleJob(ix, probe, sort, library, j, specs);
    SingleJob(ix, probe, sort', library, j', specs);
  }

  lemma CategoryKeysFacts(ix: Index, o: seq<string>, o': seq<string>, isSwitch: bool)
    requires Partitioned(ix) && IterationOf(o, ix.deviceMap.Keys) && IterationOf(o', ix.deviceMap.Keys)
    ensures var keys, keys' := CategoryKeys(ix, o, isSwitch), CategoryKeys(ix, o', isSwitch);
            && NoDup(keys) && NoDup(keys') && SameElements(keys, keys') && |keys| == |keys'|
            && forall k | k in keys :: k in ix.iommuMap
  {
    var keys, keys' := CategoryKeys(ix, o, isSwitch), CategoryKeys(ix, o', isSwitch);
    CategoryKeysSame(ix, o, o', isSwitch);
    CategoryNoDup(ix, o, isSwitch);
    CategoryNoDup(ix, o', isSwitch);
    NoDupPermutation(keys, keys');
    SameElementsOfPermutation(keys, keys');
    forall k | k in keys ensures k in ix.iommuMap {
      CategoryMember(ix, o, isSwitch, k);
    }
  }

  lemma AliasedCategory(ix: Index, probe: Result<bool, string>, aliases: Aliases, o: seq<string>, o': seq<string>,
                        ch: Choices, ch': Choices, library: Library, specs: Specs,
                          isSwitch: bool) returns (result: (Specs, Outcome))
    requires Partitioned(ix) && KeysTellApart(ix) && aliases.For(isSwitch) != ""
    requires IterationOf(o, ix.deviceMap.Keys) && IterationOf(o', ix.deviceMap.Keys)
    requires ValidSorter(ch.sort) && ValidSorter(ch'.sort)
    ensures result == RunJobs(ix, probe, ch.sort, library, CategoryJobs(ix, aliases, o, ch.lookups, isSwitch), specs)
    ensures result == RunJobs(ix, probe, ch'.sort, library, CategoryJobs(ix, aliases, o', ch'.lookups, isSwitch), specs)
  {
    var job := Job(aliases.For(isSwitch), CategoryKeys(ix, o, isSwitch));
    var job' := Job(aliases.For(isSwitch), CategoryKeys(ix, o', isSwitch));
    CategoryKeysFacts(ix, o, o', isSwitch);
    result := RunJobs(ix, probe, ch.sort, library, CategoryJobs(ix, aliases, o, ch.lookups, isSwitch), specs);
    SameWorkSameRun(ix, probe, ch.sort, ch'.sort, library, job, job', specs);
    assert job.keys == [] <==> job'.keys == [];
    assert CategoryJobs(ix, aliases, o, ch.lookups, isSwitch) == if job.keys == [] then [] else [job];
    assert CategoryJobs(ix, aliases, o', ch'.lookups, isSwitch) == if job'.keys == [] then [] else [job'];
  }

  /** With both aliases set, names and classes play no part: the outcome and the directory are the same, whatever
      was there before and whether or not a spec is refused. */
  lemma AliasedOutputCanonical(ix: Index, probe: Result<bool, string>, aliases: Aliases, ch: Choices, ch': Choices,
                               library: Library, specs: Specs)
    requires Partitioned(ix) && ValidChoices(ix, ch) && ValidChoices(ix, ch') && KeysTellApart(ix)
    requires aliases.pgpu != "" && aliases.nvSwitch != ""
    ensures RunJobs(ix, probe, ch.sort, library, AllJobs(ix, aliases, ch), specs)
         == RunJobs(ix, probe, ch'.sort, library, AllJobs(ix, aliases, ch'), specs)
  {
    var gpu := AliasedCategory(ix, probe, aliases, ch.gpuOrder, ch'.gpuOrder, ch, ch', library, specs, false);
    RunConcat(ix, probe, ch.sort, library, CategoryJobs(ix, aliases, ch.gpuOrder, ch.lookups, false),
              CategoryJobs(ix, aliases, ch.switchOrder, ch.lookups, true), specs);
    RunConcat(ix, probe, ch'.sort, library, CategoryJobs(ix, aliases, ch'.gpuOrder, ch'.lookups, false),
              CategoryJobs(ix, aliases, ch'.switchOrder, ch'.lookups, true), specs);
    var both := AliasedCategory(ix, probe, aliases, ch.switchOrder, ch'.switchOrder, ch, ch', library, gpu.0, true);
  }
}
