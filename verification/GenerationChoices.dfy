/** Exactly when the generated specs are determined by the devices: the condition under which no iteration order of the
    two maps and no outcome of the unstable sort can change what is written. */
module GenerationChoices {
  import opened Cdi
  import opened Discovery
  import opened Generation
  import opened GenerationProperties
  import opened Naming
  import opened Sequences

  // ---------------------------------------------------------------- the condition

  predicate IsSwitch(ix: Index, id: string) {
    id in ix.nvSwitchDeviceIDs
  }

  /** The class the job of an id may have: the alias of its category, or a name some bucket offers. */
  ghost predicate MayPublish(ix: Index, aliases: Aliases, id: string, c: string) {
    if aliases.For(IsSwitch(ix, id)) != "" then c == aliases.For(IsSwitch(ix, id)) else CanBeNamed(ix, id, c)
  }

  /** The ids have one job: they are one id, or their category has an alias. */
  predicate OneJob(ix: Index, aliases: Aliases, id: string, id': string) {
    id == id' || (IsSwitch(ix, id) == IsSwitch(ix, id') && aliases.For(IsSwitch(ix, id)) != "")
  }

  ghost predicate JobLists(ix: Index, aliases: Aliases, id: string, k: string) {
    exists id' :: OneJob(ix, aliases, id, id') && Lists(ix, id', k)
  }

  /** A GPU id whose class an NVSwitch id may have: NVSwitch specs are written later. */
  ghost predicate MayBeReplaced(ix: Index, aliases: Aliases, id: string, c: string) {
    !IsSwitch(ix, id) && exists id' | id' in ix.deviceMap :: IsSwitch(ix, id') && MayPublish(ix, aliases, id', c)
  }

  /** The id has no other class than c, no other job of its category may have it, and the job's keys do not tie. */
  ghost predicate SettledAs(ix: Index, aliases: Aliases, id: string, c: string) {
    && (forall c' | MayPublish(ix, aliases, id, c') :: c' == c)
    && (forall id' | id' in ix.deviceMap && IsSwitch(ix, id') == IsSwitch(ix, id) && MayPublish(ix, aliases, id', c) ::
          OneJob(ix, aliases, id, id'))
    && (forall k, k' | JobLists(ix, aliases, id, k) && JobLists(ix, aliases, id, k') && k != k' ::
          ExtractNumber(k) != ExtractNumber(k'))
  }

  /** Every id is settled in each class it may have, except a class that an NVSwitch id may take from it. */
  ghost predicate Determined(ix: Index, aliases: Aliases) {
    forall id, c | id in ix.deviceMap && MayPublish(ix, aliases, id, c) && !MayBeReplaced(ix, aliases, id, c) ::
      SettledAs(ix, aliases, id, c)
  }

  /** Generation completes under these choices. */
  ghost predicate DoneUnder(ix: Index, fd: bool, aliases: Aliases, library: Library, ch: Choices) {
    Completes(ix, fd, ch.sort, library, AllJobs(ix, aliases, ch), map[])
  }

  ghost predicate AlwaysCompletes(ix: Index, fd: bool, aliases: Aliases, library: Library) {
    forall ch | ValidChoices(ix, ch) :: DoneUnder(ix, fd, aliases, library, ch)
  }

  /** What a run under these choices leaves in an empty directory. */
  function Output(ix: Index, fd: bool, aliases: Aliases, library: Library, ch: Choices): Specs {
    Final(ix, fd, ch.sort, library, AllJobs(ix, aliases, ch), map[])
  }

  // ---------------------------------------------------------------- jobs and ids

  /** Job i is that of the id: it has its class, its place before or after the boundary, and its keys. */
  ghost predicate JobIs(ix: Index, aliases: Aliases, ch: Choices, i: nat, id: string) {
    && id in ix.deviceMap && i < |AllJobs(ix, aliases, ch)|
    && AllJobs(ix, aliases, ch)[i].class_ == PublishedName(ix, aliases, ch.lookups(id), id)
    && (IsSwitch(ix, id) <==> i >= GpuCount(ix, aliases, ch))
    && forall k :: k in AllJobs(ix, aliases, ch)[i].keys <==> JobLists(ix, aliases, id, k)
  }

  ghost predicate CategoryJobIs(ix: Index, aliases: Aliases, lookups: Lookups, job: Job, id: string) {
    && job.class_ == PublishedName(ix, aliases, lookups(id), id)
    && forall k :: k in job.keys <==> JobLists(ix, aliases, id, k)
  }

  /** Without an alias, an id's job lists the id's own keys. */
  lemma OwnJob(ix: Index, aliases: Aliases, lookups: Lookups, id: string)
    requires id in ix.deviceMap && aliases.For(IsSwitch(ix, id)) == ""
    ensures CategoryJobIs(ix, aliases, lookups, JobFor(ix, lookups, id), id)
  {
    forall k ensures k in ix.deviceMap[id] <==> JobLists(ix, aliases, id, k) {
      assert k in ix.deviceMap[id] ==> OneJob(ix, aliases, id, id) && Lists(ix, id, k);
    }
  }

  /** With an alias, the one job lists the keys of every id of the category. */
  lemma AliasJob(ix: Index, aliases: Aliases, order: seq<string>, lookups: Lookups, id: string)
    requires Partitioned(ix) && IterationOf(order, ix.deviceMap.Keys) && id in ix.deviceMap
    requires aliases.For(IsSwitch(ix, id)) != ""
    ensures var job := Job(aliases.For(IsSwitch(ix, id)), CategoryKeys(ix, order, IsSwitch(ix, id)));
            && CategoryJobs(ix, aliases, order, lookups, IsSwitch(ix, id)) == [job]
            && CategoryJobIs(ix, aliases, lookups, job, id)
  {
    var keys := CategoryKeys(ix, order, IsSwitch(ix, id));
    forall k ensures k in keys <==> JobLists(ix, aliases, id, k) {
      CategoryMember(ix, order, IsSwitch(ix, id), k);
      if id' :| OneJob(ix, aliases, id, id') && Lists(ix, id', k) {
        assert id' in order && InCategory(ix, id', IsSwitch(ix, id));
      }
    }
    assert Lists(ix, id, ix.deviceMap[id][0]) && OneJob(ix, aliases, id, id);
    assert ix.deviceMap[id][0] in keys;
  }

  lemma CategoryJobOf(ix: Index, aliases: Aliases, order: seq<string>, lookups: Lookups, id: string) returns (i: nat)
    requires Partitioned(ix) && IterationOf(order, ix.deviceMap.Keys) && id in ix.deviceMap
    ensures i < |CategoryJobs(ix, aliases, order, lookups, IsSwitch(ix, id))|
    ensures CategoryJobIs(ix, aliases, lookups, CategoryJobs(ix, aliases, order, lookups, IsSwitch(ix, id))[i], id)
  {
    if aliases.For(IsSwitch(ix, id)) != "" {
      AliasJob(ix, aliases, order, lookups, id);
      i := 0;
    } else {
      var jobs := PerIdJobs(ix, order, lookups, IsSwitch(ix, id));
      PerIdJobsMember(ix, order, lookups, IsSwitch(ix, id), JobFor(ix, lookups, id));
      OwnJob(ix, aliases, lookups, id);
      i :| 0 <= i < |jobs| && jobs[i] == JobFor(ix, lookups, id);
    }
  }

  lemma CategoryIdOf(ix: Index, aliases: Aliases, order: seq<string>, lookups: Lookups, isSwitch: bool, i: nat)
    returns (id: string)
    requires Partitioned(ix) && IterationOf(order, ix.deviceMap.Keys)
    requires i < |CategoryJobs(ix, aliases, order, lookups, isSwitch)|
    ensures InCategory(ix, id, isSwitch)
    ensures CategoryJobIs(ix, aliases, lookups, CategoryJobs(ix, aliases, order, lookups, isSwitch)[i], id)
  {
    var job := CategoryJobs(ix, aliases, order, lookups, isSwitch)[i];
    if aliases.For(isSwitch) != "" {
      CategoryMember(ix, order, isSwitch, job.keys[0]);
      id :| id in order && InCategory(ix, id, isSwitch) && Lists(ix, id, job.keys[0]);
      AliasJob(ix, aliases, order, lookups, id);
    } else {
      PerIdJobsMember(ix, order, lookups, isSwitch, job);
      id :| id in order && InCategory(ix, id, isSwitch) && job == JobFor(ix, lookups, id);
      OwnJob(ix, aliases, lookups, id);
    }
  }

  lemma JobOf(ix: Index, aliases: Aliases, ch: Choices, id: string) returns (i: nat)
    requires Partitioned(ix) && ValidChoices(ix, ch) && id in ix.deviceMap
    ensures JobIs(ix, aliases, ch, i, id)
  {
    if IsSwitch(ix, id) {
      i := CategoryJobOf(ix, aliases, ch.switchOrder, ch.lookups, id);
      i := i + GpuCount(ix, aliases, ch);
    } else {
      i := CategoryJobOf(ix, aliases, ch.gpuOrder, ch.lookups, id);
    }
  }

  /** A job of one category, at its place among all the jobs. */
  lemma JobPlace(ix: Index, aliases: Aliases, ch: Choices, i: nat, id: string)
    requires i < |AllJobs(ix, aliases, ch)| && InCategory(ix, id, i >= GpuCount(ix, aliases, ch))
    requires CategoryJobIs(ix, aliases, ch.lookups, AllJobs(ix, aliases, ch)[i], id)
    ensures JobIs(ix, aliases, ch, i, id)
  {}

  lemma IdOf(ix: Index, aliases: Aliases, ch: Choices, i: nat) returns (id: string)
    requires Partitioned(ix) && ValidChoices(ix, ch) && i < |AllJobs(ix, aliases, ch)|
    ensures JobIs(ix, aliases, ch, i, id)
  {
    var gpus, jobs := GpuCount(ix, aliases, ch), AllJobs(ix, aliases, ch);
    if i < gpus {
      assert jobs[i] == CategoryJobs(ix, aliases, ch.gpuOrder, ch.lookups, false)[i];
      id := CategoryIdOf(ix, aliases, ch.gpuOrder, ch.lookups, false, i);
    } else {
      assert jobs[i] == CategoryJobs(ix, aliases, ch.switchOrder, ch.lookups, true)[i - gpus];
      id := CategoryIdOf(ix, aliases, ch.switchOrder, ch.lookups, true, i - gpus);
    }
    JobPlace(ix, aliases, ch, i, id);
  }

  /** Ids with one job have one job. */
  lemma OneJobOnce(ix: Index, aliases: Aliases, ch: Choices, i: nat, id: string, i': nat, id': string)
    requires Partitioned(ix) && ValidChoices(ix, ch)
    requires JobIs(ix, aliases, ch, i, id) && JobIs(ix, aliases, ch, i', id') && OneJob(ix, aliases, id, id')
    ensures i == i'
  {
    var jobs, k := AllJobs(ix, aliases, ch), ix.deviceMap[id][0];
    assert Lists(ix, id, k) && OneJob(ix, aliases, id, id) && OneJob(ix, aliases, id', id);
    AllJobsWellFormed(ix, aliases, ch);
    JobKeysDisjoint(jobs);
    assert k in jobs[i].keys && k in jobs[i'].keys;
  }

  lemma PublishedMay(ix: Index, aliases: Aliases, ch: Choices, id: string)
    requires ValidChoices(ix, ch)
    ensures MayPublish(ix, aliases, id, PublishedName(ix, aliases, ch.lookups(id), id))
  {
    NamedUnder(ix, ch.lookups(id), id);
  }

  // ---------------------------------------------------------------- the last job of a class

  ghost predicate LastOfClass(jobs: seq<Job>, i: nat) {
    i < |jobs| && forall j | i < j < |jobs| :: jobs[j].class_ != jobs[i].class_
  }

  lemma {:induction false} LastWith(jobs: seq<Job>, i: nat) returns (m: nat)
    requires i < |jobs|
    ensures LastOfClass(jobs, m) && jobs[m].class_ == jobs[i].class_
    decreases |jobs| - i
  {
    m := i;
    if j :| i < j < |jobs| && jobs[j].class_ == jobs[i].class_ {
      m := LastWith(jobs, j);
    }
  }

  lemma Written(ix: Index, fd: bool, aliases: Aliases, library: Library, ch: Choices, i: nat)
    requires Partitioned(ix) && ValidChoices(ix, ch) && DoneUnder(ix, fd, aliases, library, ch)
    requires LastOfClass(AllJobs(ix, aliases, ch), i)
    ensures var job := AllJobs(ix, aliases, ch)[i];
            job.class_ in Output(ix, fd, aliases, library, ch)
            && Output(ix, fd, aliases, library, ch)[job.class_] == JobEntries(ix, fd, ch.sort, job)
  {
    AllNothingEmpty(ix, fd, aliases, ch);
    LastJobWins(ix, fd, ch.sort, library, AllJobs(ix, aliases, ch), map[], i);
  }

  lemma WriterOf(ix: Index, fd: bool, aliases: Aliases, library: Library, ch: Choices, c: string)
    returns (m: nat, id: string)
    requires Partitioned(ix) && ValidChoices(ix, ch) && DoneUnder(ix, fd, aliases, library, ch)
    requires c in Output(ix, fd, aliases, library, ch)
    ensures LastOfClass(AllJobs(ix, aliases, ch), m) && AllJobs(ix, aliases, ch)[m].class_ == c
    ensures JobIs(ix, aliases, ch, m, id) && MayPublish(ix, aliases, id, c)
  {
    var jobs := AllJobs(ix, aliases, ch);
    AllNothingEmpty(ix, fd, aliases, ch);
    RunTouches(ix, fd, ch.sort, library, jobs, map[], c);
    var i :| 0 <= i < |jobs| && jobs[i].class_ == c;
    m := LastWith(jobs, i);
    id := IdOf(ix, aliases, ch, m);
    PublishedMay(ix, aliases, ch, id);
  }

  /** Which keys the spec of a class names. */
  lemma KeysWritten(ix: Index, fd: bool, aliases: Aliases, library: Library, ch: Choices, i: nat, id: string, k: string)
    requires Partitioned(ix) && ValidChoices(ix, ch) && DoneUnder(ix, fd, aliases, library, ch) && k in ix.iommuMap
    requires LastOfClass(AllJobs(ix, aliases, ch), i) && JobIs(ix, aliases, ch, i, id)
    ensures var c := AllJobs(ix, aliases, ch)[i].class_;
            && c in Output(ix, fd, aliases, library, ch)
            && (CountNamed(Output(ix, fd, aliases, library, ch)[c], k) > 0 <==> JobLists(ix, aliases, id, k))
  {
    Written(ix, fd, aliases, library, ch, i);
    AllJobsWellFormed(ix, aliases, ch);
    JobEntriesCount(ix, fd, AllJobs(ix, aliases, ch), i, ch.sort, k);
  }

  // ---------------------------------------------------------------- the condition suffices

  /** The job written last of its class is not one that an NVSwitch id may replace. */
  lemma WriterStands(ix: Index, aliases: Aliases, ch: Choices, m: nat, id: string, c: string)
    requires Partitioned(ix) && ValidChoices(ix, ch) && Determined(ix, aliases)
    requires LastOfClass(AllJobs(ix, aliases, ch), m) && JobIs(ix, aliases, ch, m, id)
    requires AllJobs(ix, aliases, ch)[m].class_ == c
    ensures !MayBeReplaced(ix, aliases, id, c)
  {
    if !IsSwitch(ix, id) {
      if id' :| id' in ix.deviceMap && IsSwitch(ix, id') && MayPublish(ix, aliases, id', c) {
        assert SettledAs(ix, aliases, id', c);
        PublishedMay(ix, aliases, ch, id');
        var j := JobOf(ix, aliases, ch, id');
        assert false;
      }
    }
  }

  /** A settled id's job is the last of its class under any choices. */
  lemma SettledIsLast(ix: Index, aliases: Aliases, ch: Choices, i: nat, id: string, c: string)
    requires Partitioned(ix) && ValidChoices(ix, ch) && JobIs(ix, aliases, ch, i, id)
    requires SettledAs(ix, aliases, id, c) && !MayBeReplaced(ix, aliases, id, c)
    ensures LastOfClass(AllJobs(ix, aliases, ch), i) && AllJobs(ix, aliases, ch)[i].class_ == c
  {
    var jobs := AllJobs(ix, aliases, ch);
    PublishedMay(ix, aliases, ch, id);
    forall j | i < j < |jobs| ensures jobs[j].class_ != c {
      var id' := IdOf(ix, aliases, ch, j);
      PublishedMay(ix, aliases, ch, id');
      if jobs[j].class_ == c && OneJob(ix, aliases, id, id') {
        OneJobOnce(ix, aliases, ch, i, id, j, id');
      }
    }
  }

  lemma SettledKeys(ix: Index, aliases: Aliases, ch: Choices, i: nat, id: string, c: string)
    requires Partitioned(ix) && ValidChoices(ix, ch) && JobIs(ix, aliases, ch, i, id) && SettledAs(ix, aliases, id, c)
    ensures NoDup(AllJobs(ix, aliases, ch)[i].keys) && DistinctNumbers(AllJobs(ix, aliases, ch)[i].keys)
  {
    var keys := AllJobs(ix, aliases, ch)[i].keys;
    AllJobsWellFormed(ix, aliases, ch);
    JobKeysDisjoint(AllJobs(ix, aliases, ch));
    forall a, b | 0 <= a < b < |keys| ensures ExtractNumber(keys[a]) != ExtractNumber(keys[b]) {
      assert keys[a] in keys && keys[b] in keys;
    }
  }

  /** A settled id's job has the same entries under any choices. */
  lemma SettledEntries(ix: Index, fd: bool, aliases: Aliases, ch: Choices, ch': Choices, m: nat, i: nat, id: string,
                       c: string)
    requires Partitioned(ix) && ValidChoices(ix, ch) && ValidChoices(ix, ch')
    requires JobIs(ix, aliases, ch, m, id) && JobIs(ix, aliases, ch', i, id) && SettledAs(ix, aliases, id, c)
    ensures JobEntries(ix, fd, ch.sort, AllJobs(ix, aliases, ch)[m]) ==
              JobEntries(ix, fd, ch'.sort, AllJobs(ix, aliases, ch')[i])
  {
    SettledKeys(ix, aliases, ch, m, id, c);
    SettledKeys(ix, aliases, ch', i, id, c);
    PublishedMay(ix, aliases, ch, id);
    PublishedMay(ix, aliases, ch', id);
    SameWorkSameEntries(ix, fd, ch.sort, ch'.sort, AllJobs(ix, aliases, ch)[m], AllJobs(ix, aliases, ch')[i]);
  }

  lemma SpecDetermined(ix: Index, fd: bool, aliases: Aliases, library: Library, ch: Choices, ch': Choices, c: string)
    requires Partitioned(ix) && ValidChoices(ix, ch) && ValidChoices(ix, ch')
    requires DoneUnder(ix, fd, aliases, library, ch) && DoneUnder(ix, fd, aliases, library, ch')
    requires Determined(ix, aliases) && c in Output(ix, fd, aliases, library, ch)
    ensures c in Output(ix, fd, aliases, library, ch')
    ensures Output(ix, fd, aliases, library, ch')[c] == Output(ix, fd, aliases, library, ch)[c]
  {
    var m, id := WriterOf(ix, fd, aliases, library, ch, c);
    WriterStands(ix, aliases, ch, m, id, c);
    var i := JobOf(ix, aliases, ch', id);
    SettledIsLast(ix, aliases, ch', i, id, c);
    SettledEntries(ix, fd, aliases, ch, ch', m, i, id, c);
    Written(ix, fd, aliases, library, ch, m);
    Written(ix, fd, aliases, library, ch', i);
  }

  lemma EqualSpecs(specs: Specs, specs': Specs)
    requires (forall c | c in specs' :: c in specs) && forall c | c in specs :: c in specs' && specs'[c] == specs[c]
    ensures specs' == specs
  {
    assert specs'.Keys == specs.Keys;
  }

  /** Any two completing runs leave the same. */
  lemma DeterminedOutput(ix: Index, fd: bool, aliases: Aliases, library: Library, ch: Choices, ch': Choices)
    requires Partitioned(ix) && ValidChoices(ix, ch) && ValidChoices(ix, ch') && Determined(ix, aliases)
    requires DoneUnder(ix, fd, aliases, library, ch) && DoneUnder(ix, fd, aliases, library, ch')
    ensures Output(ix, fd, aliases, library, ch') == Output(ix, fd, aliases, library, ch)
  {
    var specs, specs' := Output(ix, fd, aliases, library, ch), Output(ix, fd, aliases, library, ch');
    forall c | c in specs' ensures c in specs {
      SpecDetermined(ix, fd, aliases, library, ch', ch, c);
    }
    forall c | c in specs ensures c in specs' && specs'[c] == specs[c] {
      SpecDetermined(ix, fd, aliases, library, ch, ch', c);
    }
    EqualSpecs(specs, specs');
  }

  /** Where names are settled, the class an id has is the only one it may have. */
  lemma OneClass(ix: Index, aliases: Aliases, ch: Choices, id: string, c: string)
    requires ValidChoices(ix, ch) && NamesSettled(ix, aliases) && id in ix.deviceMap && MayPublish(ix, aliases, id, c)
    ensures PublishedName(ix, aliases, ch.lookups(id), id) == c
  {
    if aliases.For(IsSwitch(ix, id)) == "" {
      var order := NameChosen(ix, ch.lookups(id), id, c);
      NameOrderFree(ix, id);
      assert NameForId(ix, ch.lookups(id), id) == NameForId(ix, order, id);
    }
  }

  lemma SameJobOneJob(ix: Index, aliases: Aliases, ch: Choices, i: nat, id: string, id': string)
    requires Partitioned(ix) && JobIs(ix, aliases, ch, i, id) && JobIs(ix, aliases, ch, i, id')
    ensures OneJob(ix, aliases, id, id')
  {
    var k := ix.deviceMap[id][0];
    assert Lists(ix, id, k) && OneJob(ix, aliases, id, id);
    assert JobLists(ix, aliases, id', k);
  }

  /** Where classes are distinct, ids of one category with one class have one job. */
  lemma DistinctOneJob(ix: Index, aliases: Aliases, ch: Choices, id: string, id': string)
    requires Partitioned(ix) && ValidChoices(ix, ch) && DistinctClasses(AllJobs(ix, aliases, ch))
    requires id in ix.deviceMap && id' in ix.deviceMap
    requires PublishedName(ix, aliases, ch.lookups(id), id) == PublishedName(ix, aliases, ch.lookups(id'), id')
    ensures OneJob(ix, aliases, id, id')
  {
    var i := JobOf(ix, aliases, ch, id);
    var i' := JobOf(ix, aliases, ch, id');
    assert i == i';
    SameJobOneJob(ix, aliases, ch, i, id, id');
  }

  lemma JobKeysKnown(ix: Index, aliases: Aliases, id: string, k: string)
    requires Partitioned(ix) && JobLists(ix, aliases, id, k)
    ensures k in ix.iommuMap
  {}

  lemma DistinctSettled(ix: Index, aliases: Aliases, ch: Choices, id: string, c: string)
    requires Partitioned(ix) && ValidChoices(ix, ch) && NamesSettled(ix, aliases) && KeysTellApart(ix)
    requires DistinctClasses(AllJobs(ix, aliases, ch)) && id in ix.deviceMap && MayPublish(ix, aliases, id, c)
    ensures SettledAs(ix, aliases, id, c)
  {
    OneClass(ix, aliases, ch, id, c);
    forall c' | MayPublish(ix, aliases, id, c') ensures c' == c {
      OneClass(ix, aliases, ch, id, c');
    }
    forall id' | id' in ix.deviceMap && IsSwitch(ix, id') == IsSwitch(ix, id) && MayPublish(ix, aliases, id', c)
      ensures OneJob(ix, aliases, id, id') {
      OneClass(ix, aliases, ch, id', c);
      DistinctOneJob(ix, aliases, ch, id, id');
    }
    forall k | JobLists(ix, aliases, id, k) ensures k in ix.iommuMap {
      JobKeysKnown(ix, aliases, id, k);
    }
  }

  /** Where every id is settled in each class it may have, completion does not depend on the choices. */
  lemma SettledCompletion(ix: Index, fd: bool, aliases: Aliases, library: Library, ch: Choices, ch': Choices)
    requires Partitioned(ix) && ValidChoices(ix, ch) && ValidChoices(ix, ch')
    requires forall id, c | id in ix.deviceMap && MayPublish(ix, aliases, id, c) :: SettledAs(ix, aliases, id, c)
    requires DoneUnder(ix, fd, aliases, library, ch)
    ensures DoneUnder(ix, fd, aliases, library, ch')
  {
    var jobs, jobs' := AllJobs(ix, aliases, ch), AllJobs(ix, aliases, ch');
    AllNothingEmpty(ix, fd, aliases, ch);
    AllNothingEmpty(ix, fd, aliases, ch');
    CompletesIff(ix, fd, ch.sort, library, jobs, map[]);
    CompletesIff(ix, fd, ch'.sort, library, jobs', map[]);
    forall i' | 0 <= i' < |jobs'| ensures Accepted(ix, fd, ch'.sort, library, jobs'[i']) {
      var id := IdOf(ix, aliases, ch', i');
      var i := JobOf(ix, aliases, ch, id);
      PublishedMay(ix, aliases, ch, id);
      SettledEntries(ix, fd, aliases, ch, ch', i, i', id, jobs[i].class_);
      PublishedMay(ix, aliases, ch', id);
      assert Accepted(ix, fd, ch.sort, library, jobs[i]);
    }
  }

  /** Whether generation completes, and every file it then leaves, is the same under any two resolutions of
      Go's choices, for every alias setting. */
  lemma OutputCanonical(ix: Index, fd: bool, aliases: Aliases, ch: Choices, ch': Choices, library: Library)
    requires Partitioned(ix) && ValidChoices(ix, ch) && ValidChoices(ix, ch') && NamesSettled(ix, aliases)
             && KeysTellApart(ix)
    requires DistinctClasses(AllJobs(ix, aliases, ch))
    ensures DoneUnder(ix, fd, aliases, library, ch) <==> DoneUnder(ix, fd, aliases, library, ch')
    ensures DoneUnder(ix, fd, aliases, library, ch) ==>
              Output(ix, fd, aliases, library, ch) == Output(ix, fd, aliases, library, ch')
  {
    forall id, c | id in ix.deviceMap && MayPublish(ix, aliases, id, c) ensures SettledAs(ix, aliases, id, c) {
      DistinctSettled(ix, aliases, ch, id, c);
    }
    if DoneUnder(ix, fd, aliases, library, ch) {
      SettledCompletion(ix, fd, aliases, library, ch, ch');
      DeterminedOutput(ix, fd, aliases, library, ch, ch');
    } else if DoneUnder(ix, fd, aliases, library, ch') {
      SettledCompletion(ix, fd, aliases, library, ch', ch);
    }
  }

  // ---------------------------------------------------------------- the condition is needed

  lemma MoveToEnd(order: seq<string>, keys: set<string>, id: string) returns (init: seq<string>)
    requires IterationOf(order, keys) && id in keys
    ensures IterationOf(init + [id], keys)
  {
    assert id in order;
    var p :| 0 <= p < |order| && order[p] == id;
    init := order[..p] + order[p + 1..];
    forall x ensures x in init + [id] <==> x in order {
      if x in order {
        var q :| 0 <= q < |order| && order[q] == x;
        assert q < p ==> init[q] == x;
        assert q > p ==> init[q - 1] == x;
      }
    }
  }

  /** Moving an id to the end of its iteration moves its job to the end of its category. */
  lemma LastInCategory(ix: Index, aliases: Aliases, order: seq<string>, lookups: Lookups, id: string, isSwitch: bool)
    returns (order': seq<string>, before: seq<Job>)
    requires IterationOf(order, ix.deviceMap.Keys) && InCategory(ix, id, isSwitch) && aliases.For(isSwitch) == ""
    ensures IterationOf(order', ix.deviceMap.Keys)
    ensures CategoryJobs(ix, aliases, order', lookups, isSwitch) == before + [JobFor(ix, lookups, id)]
  {
    var init := MoveToEnd(order, ix.deviceMap.Keys, id);
    order' := init + [id];
    assert order'[..|init|] == init;
    before := PerIdJobs(ix, init, lookups, isSwitch);
  }

  /** Choices under which an id is published under a name it can have. */
  lemma ChooseName(ix: Index, ch: Choices, id: string, c: string) returns (ch': Choices)
    requires ValidChoices(ix, ch) && CanBeNamed(ix, id, c)
    ensures ValidChoices(ix, ch') && ch'.(lookups := ch.lookups) == ch && NameOrId(ix, ch'.lookups(id), id) == c
  {
    var order := NameChosen(ix, ch.lookups(id), id, c);
    var before := ch.lookups;
    ch' := ch.(lookups := x => if x == id then order else before(x));
  }

  /** A later job of a class the id cannot lose to an NVSwitch id is of the id's category, which has no alias. */
  lemma LaterIsOther(ix: Index, aliases: Aliases, ch: Choices, i: nat, id: string, j: nat, c: string)
    requires Partitioned(ix) && ValidChoices(ix, ch) && JobIs(ix, aliases, ch, i, id)
    requires !MayBeReplaced(ix, aliases, id, c) && i < j < |AllJobs(ix, aliases, ch)|
    requires AllJobs(ix, aliases, ch)[j].class_ == c
    ensures aliases.For(IsSwitch(ix, id)) == "" && (IsSwitch(ix, id) <==> j >= GpuCount(ix, aliases, ch))
  {
    var id' := IdOf(ix, aliases, ch, j);
    PublishedMay(ix, aliases, ch, id');
    if OneJob(ix, aliases, id, id') {
      OneJobOnce(ix, aliases, ch, i, id, j, id');
    }
  }

  /** An id's own job can stand at the end of its category. */
  lemma OwnJobLast(ix: Index, aliases: Aliases, ch: Choices, id: string) returns (ch': Choices, before: seq<Job>)
    requires ValidChoices(ix, ch) && id in ix.deviceMap && aliases.For(IsSwitch(ix, id)) == ""
    ensures ValidChoices(ix, ch') && ch'.lookups == ch.lookups
    ensures var order := if IsSwitch(ix, id) then ch'.switchOrder else ch'.gpuOrder;
            CategoryJobs(ix, aliases, order, ch.lookups, IsSwitch(ix, id)) == before + [JobFor(ix, ch.lookups, id)]
  {
    var order;
    if IsSwitch(ix, id) {
      order, before := LastInCategory(ix, aliases, ch.switchOrder, ch.lookups, id, true);
      ch' := ch.(switchOrder := order);
    } else {
      order, before := LastInCategory(ix, aliases, ch.gpuOrder, ch.lookups, id, false);
      ch' := ch.(gpuOrder := order);
    }
  }

  /** Choices under which the id's job has the class and is the last with it. */
  lemma LastWord(ix: Index, aliases: Aliases, ch: Choices, id: string, c: string) returns (ch': Choices, i: nat)
    requires Partitioned(ix) && ValidChoices(ix, ch) && id in ix.deviceMap
    requires MayPublish(ix, aliases, id, c) && !MayBeReplaced(ix, aliases, id, c)
    ensures ValidChoices(ix, ch') && JobIs(ix, aliases, ch', i, id)
    ensures LastOfClass(AllJobs(ix, aliases, ch'), i) && AllJobs(ix, aliases, ch')[i].class_ == c
  {
    if aliases.For(IsSwitch(ix, id)) != "" {
      ch' := ch;
      i := JobOf(ix, aliases, ch', id);
    } else {
      ch' := ChooseName(ix, ch, id, c);
      OwnJob(ix, aliases, ch'.lookups, id);
      var before;
      ch', before := OwnJobLast(ix, aliases, ch', id);
      i := |before| + if IsSwitch(ix, id) then GpuCount(ix, aliases, ch') else 0;
    }
    forall j | i < j < |AllJobs(ix, aliases, ch')| ensures AllJobs(ix, aliases, ch')[j].class_ != c {
      if AllJobs(ix, aliases, ch')[j].class_ == c {
        LaterIsOther(ix, aliases, ch', i, id, j, c);
      }
    }
  }

  /** The two runs, if they complete, leave different files. */
  ghost predicate OutputsDiffer(ix: Index, fd: bool, aliases: Aliases, library: Library, one: Choices, other: Choices) {
    DoneUnder(ix, fd, aliases, library, one) && DoneUnder(ix, fd, aliases, library, other) ==>
      Output(ix, fd, aliases, library, one) != Output(ix, fd, aliases, library, other)
  }

  /** An id with two classes: its keys stand in the spec of one, or of the other. */
  lemma TwoClassesShow(ix: Index, fd: bool, aliases: Aliases, library: Library, ch: Choices, id: string, c: string,
                       c': string)
    returns (one: Choices, other: Choices)
    requires Partitioned(ix) && ValidChoices(ix, ch) && id in ix.deviceMap
    requires MayPublish(ix, aliases, id, c) && MayPublish(ix, aliases, id, c') && c != c'
    requires !MayBeReplaced(ix, aliases, id, c)
    ensures ValidChoices(ix, one) && ValidChoices(ix, other)
    ensures OutputsDiffer(ix, fd, aliases, library, one, other)
  {
    var k := ix.deviceMap[id][0];
    var i;
    one, i := LastWord(ix, aliases, ch, id, c);
    other := ChooseName(ix, ch, id, c');
    assert Lists(ix, id, k) && OneJob(ix, aliases, id, id);
    if DoneUnder(ix, fd, aliases, library, one) && DoneUnder(ix, fd, aliases, library, other) {
      KeysWritten(ix, fd, aliases, library, one, i, id, k);
      if c in Output(ix, fd, aliases, library, other) {
        var m, writer := WriterOf(ix, fd, aliases, library, other, c);
        KeysWritten(ix, fd, aliases, library, other, m, writer, k);
        assert JobLists(ix, aliases, writer, k) ==> writer == id;
      }
    }
  }

  /** Two jobs of one category with one class: either can be written last. */
  lemma TwoIdsShow(ix: Index, fd: bool, aliases: Aliases, library: Library, ch: Choices, id: string, id': string,
                   c: string)
    returns (one: Choices, other: Choices)
    requires Partitioned(ix) && ValidChoices(ix, ch)
    requires id in ix.deviceMap && id' in ix.deviceMap && IsSwitch(ix, id) == IsSwitch(ix, id')
    requires !OneJob(ix, aliases, id, id') && MayPublish(ix, aliases, id, c) && MayPublish(ix, aliases, id', c)
    requires !MayBeReplaced(ix, aliases, id, c)
    ensures ValidChoices(ix, one) && ValidChoices(ix, other)
    ensures OutputsDiffer(ix, fd, aliases, library, one, other)
  {
    var k := ix.deviceMap[id][0];
    var i, i';
    one, i := LastWord(ix, aliases, ch, id, c);
    other, i' := LastWord(ix, aliases, ch, id', c);
    assert Lists(ix, id, k) && OneJob(ix, aliases, id, id);
    if DoneUnder(ix, fd, aliases, library, one) && DoneUnder(ix, fd, aliases, library, other) {
      KeysWritten(ix, fd, aliases, library, one, i, id, k);
      KeysWritten(ix, fd, aliases, library, other, i', id', k);
    }
  }

  ghost predicate Occupied(ix: Index, keys: seq<string>) {
    forall p | 0 <= p < |keys| :: BucketAt(ix, keys[p]) != []
  }

  /** The last key and its bucket can be read off the end of the entries. */
  lemma LastBucket(ix: Index, fd: bool, init: seq<string>, k: string)
    requires BucketAt(ix, k) != []
    ensures var entries := Entries(ix, fd, init + [k]);
            && entries != [] && entries[|entries| - 1].name == k
            && |BucketAt(ix, k)| <= |entries| && entries[..|entries| - |BucketAt(ix, k)|] == Entries(ix, fd, init)
  {
    EntriesSnoc(ix, fd, init, k);
    var last := BucketEntries(fd, k, BucketAt(ix, k));
    assert last[|last| - 1].name == k;
  }

  /** The keys read back off a spec's entries, bucket by bucket from the end. */
  function KeysOf(ix: Index, entries: seq<CdiDevice>): seq<string>
    decreases |entries|
  {
    if entries == [] then [] else
      var k := entries[|entries| - 1].name;
      var size := |BucketAt(ix, k)|;
      if size == 0 || size > |entries| then [] else KeysOf(ix, entries[..|entries| - size]) + [k]
  }

  /** The entries tell in which order the keys stood. */
  lemma {:induction false} KeysRoundTrip(ix: Index, fd: bool, keys: seq<string>)
    requires Occupied(ix, keys)
    ensures KeysOf(ix, Entries(ix, fd, keys)) == keys
  {
    if keys != [] {
      var init, k := keys[..|keys| - 1], keys[|keys| - 1];
      assert keys == init + [k];
      LastBucket(ix, fd, init, k);
      KeysRoundTrip(ix, fd, init);
    }
  }

  /** A sort that breaks a tie among the given keys differently. */
  lemma OtherSort(keys: seq<string>, sort: Sorter) returns (other: Sorter)
    requires NoDup(keys) && !DistinctNumbers(keys) && ValidSorter(sort)
    ensures ValidSorter(other) && other(keys) != sort(keys)
  {
    OrderDeterminedIff(keys, sort);
    var a, b :| IsSortOf(keys, a) && IsSortOf(keys, b) && a != b;
    var c := if a == sort(keys) then b else a;
    other := ks => if ks == keys then c else sort(ks);
    assert forall ks :: IsSortOf(ks, other(ks)) by {
      forall ks ensures IsSortOf(ks, other(ks)) {
        assert IsSortOf(ks, sort(ks));
      }
    }
  }

  /** A sort lists as many keys as the job has, each with devices. */
  lemma SortsOccupied(ix: Index, jobs: seq<Job>, i: nat, sort: Sorter)
    requires Partitioned(ix) && WellFormedJobs(ix, jobs) && ValidSorter(sort) && i < |jobs|
    ensures Occupied(ix, sort(jobs[i].keys)) && |sort(jobs[i].keys)| == |jobs[i].keys|
  {
    var sorted := sort(jobs[i].keys);
    SortedJob(ix, jobs, i, sort);
    assert IsSortOf(jobs[i].keys, sorted);
    SameElementsOfPermutation(jobs[i].keys, sorted);
    forall p | 0 <= p < |sorted| ensures BucketAt(ix, sorted[p]) != [] {
      assert sorted[p] in jobs[i].keys;
    }
  }

  lemma OtherSortShows(ix: Index, fd: bool, jobs: seq<Job>, i: nat, sort: Sorter) returns (other: Sorter)
    requires Partitioned(ix) && WellFormedJobs(ix, jobs) && ValidSorter(sort) && i < |jobs|
             && !DistinctNumbers(jobs[i].keys)
    ensures ValidSorter(other) && JobEntries(ix, fd, other, jobs[i]) != JobEntries(ix, fd, sort, jobs[i])
  {
    JobKeysDisjoint(jobs);
    other := OtherSort(jobs[i].keys, sort);
    SortsOccupied(ix, jobs, i, sort);
    SortsOccupied(ix, jobs, i, other);
    KeysRoundTrip(ix, fd, sort(jobs[i].keys));
    KeysRoundTrip(ix, fd, other(jobs[i].keys));
  }

  lemma TiedKeys(keys: seq<string>, k: string, k': string)
    requires k in keys && k' in keys && k != k' && ExtractNumber(k) == ExtractNumber(k')
    ensures !DistinctNumbers(keys)
  {
    var p :| 0 <= p < |keys| && keys[p] == k;
    var q :| 0 <= q < |keys| && keys[q] == k';
    assert ExtractNumber(keys[if p < q then p else q]) == ExtractNumber(keys[if p < q then q else p]);
  }

  /** Where the last job of a class has a tie, sorting it otherwise changes the class's file. */
  lemma OtherSortDiffers(ix: Index, fd: bool, aliases: Aliases, library: Library, one: Choices, i: nat)
    returns (other: Choices)
    requires Partitioned(ix) && ValidChoices(ix, one) && LastOfClass(AllJobs(ix, aliases, one), i)
    requires !DistinctNumbers(AllJobs(ix, aliases, one)[i].keys)
    ensures ValidChoices(ix, other) && OutputsDiffer(ix, fd, aliases, library, one, other)
  {
    AllJobsWellFormed(ix, aliases, one);
    var sort := OtherSortShows(ix, fd, AllJobs(ix, aliases, one), i, one.sort);
    other := one.(sort := sort);
    assert AllJobs(ix, aliases, other) == AllJobs(ix, aliases, one);
    if DoneUnder(ix, fd, aliases, library, one) && DoneUnder(ix, fd, aliases, library, other) {
      Written(ix, fd, aliases, library, one, i);
      Written(ix, fd, aliases, library, other, i);
    }
  }

  /** Two keys of one job that are read as the same number: the sort decides their order. */
  lemma TieShows(ix: Index, fd: bool, aliases: Aliases, library: Library, ch: Choices, id: string, c: string,
                 k: string, k': string)
    returns (one: Choices, other: Choices)
    requires Partitioned(ix) && ValidChoices(ix, ch) && id in ix.deviceMap
    requires MayPublish(ix, aliases, id, c) && !MayBeReplaced(ix, aliases, id, c)
    requires JobLists(ix, aliases, id, k) && JobLists(ix, aliases, id, k') && k != k'
             && ExtractNumber(k) == ExtractNumber(k')
    ensures ValidChoices(ix, one) && ValidChoices(ix, other)
    ensures OutputsDiffer(ix, fd, aliases, library, one, other)
  {
    var i;
    one, i := LastWord(ix, aliases, ch, id, c);
    TiedKeys(AllJobs(ix, aliases, one)[i].keys, k, k');
    other := OtherSortDiffers(ix, fd, aliases, library, one, i);
  }

  lemma UnsettledShows(ix: Index, fd: bool, aliases: Aliases, library: Library, ch: Choices, id: string, c: string)
    returns (one: Choices, other: Choices)
    requires Partitioned(ix) && ValidChoices(ix, ch) && id in ix.deviceMap
    requires MayPublish(ix, aliases, id, c) && !MayBeReplaced(ix, aliases, id, c) && !SettledAs(ix, aliases, id, c)
    ensures ValidChoices(ix, one) && ValidChoices(ix, other)
    ensures OutputsDiffer(ix, fd, aliases, library, one, other)
  {
    if c' :| MayPublish(ix, aliases, id, c') && c' != c {
      one, other := TwoClassesShow(ix, fd, aliases, library, ch, id, c, c');
    } else if id' :| id' in ix.deviceMap && IsSwitch(ix, id') == IsSwitch(ix, id) && MayPublish(ix, aliases, id', c)
                     && !OneJob(ix, aliases, id, id') {
      one, other := TwoIdsShow(ix, fd, aliases, library, ch, id, id', c);
    } else {
      var k, k' :| JobLists(ix, aliases, id, k) && JobLists(ix, aliases, id, k') && k != k'
                   && ExtractNumber(k) == ExtractNumber(k');
      one, other := TieShows(ix, fd, aliases, library, ch, id, c, k, k');
    }
  }

  // ---------------------------------------------------------------- the exact condition

  /** Where generation completes whatever Go chooses, what it writes is the same for all choices exactly when every id
      is settled in each class it may have and cannot lose to an NVSwitch id. */
  lemma OutputDeterminedIff(ix: Index, fd: bool, aliases: Aliases, library: Library, ch: Choices)
    requires Partitioned(ix) && ValidChoices(ix, ch) && AlwaysCompletes(ix, fd, aliases, library)
    ensures Determined(ix, aliases) <==>
            forall ch' | ValidChoices(ix, ch') ::
                     Output(ix, fd, aliases, library, ch') == Output(ix, fd, aliases, library, ch)
  {
    if Determined(ix, aliases) {
      forall ch' | ValidChoices(ix, ch')
        ensures Output(ix, fd, aliases, library, ch') == Output(ix, fd, aliases, library, ch) {
        DeterminedOutput(ix, fd, aliases, library, ch, ch');
      }
    } else {
      var id, c :| id in ix.deviceMap && MayPublish(ix, aliases, id, c) && !MayBeReplaced(ix, aliases, id, c)
                   && !SettledAs(ix, aliases, id, c);
      var one, other := UnsettledShows(ix, fd, aliases, library, ch, id, c);
    }
  }

  // ---------------------------------------------------------------- which spec a key stands in

  /** The key has an entry for each of its devices under the class, and none elsewhere. */
  ghost predicate OnlyUnder(ix: Index, specs: Specs, c: string, k: string) {
    && k in ix.iommuMap && c in specs && CountNamed(specs[c], k) == |ix.iommuMap[k]|
    && forall c' | c' in specs && c' != c :: CountNamed(specs[c'], k) == 0
  }

  /** A class that holds the key was written by its job. */
  lemma HoldsKey(ix: Index, fd: bool, aliases: Aliases, library: Library, ch: Choices, i: nat, id: string, k: string,
                 c: string)
    requires Partitioned(ix) && ValidChoices(ix, ch) && DoneUnder(ix, fd, aliases, library, ch)
    requires JobIs(ix, aliases, ch, i, id) && Lists(ix, id, k)
    requires c in Output(ix, fd, aliases, library, ch) && CountNamed(Output(ix, fd, aliases, library, ch)[c], k) > 0
    ensures AllJobs(ix, aliases, ch)[i].class_ == c && LastOfClass(AllJobs(ix, aliases, ch), i)
  {
    var m, writer := WriterOf(ix, fd, aliases, library, ch, c);
    KeysWritten(ix, fd, aliases, library, ch, m, writer, k);
    var id' :| OneJob(ix, aliases, writer, id') && Lists(ix, id', k);
    OneJobOnce(ix, aliases, ch, m, writer, i, id);
  }

  /** The class of an id's job holds its keys with all their devices, and no other class any of them, exactly when the
      job is the last of its class. */
  lemma KeysUnderClass(ix: Index, fd: bool, aliases: Aliases, library: Library, ch: Choices, i: nat, id: string,
                       k: string)
    requires Partitioned(ix) && ValidChoices(ix, ch) && DoneUnder(ix, fd, aliases, library, ch)
    requires JobIs(ix, aliases, ch, i, id) && Lists(ix, id, k)
    ensures LastOfClass(AllJobs(ix, aliases, ch), i) <==>
            OnlyUnder(ix, Output(ix, fd, aliases, library, ch), PublishedName(ix, aliases, ch.lookups(id), id), k)
  {
    var jobs, specs, c := AllJobs(ix, aliases, ch), Output(ix, fd, aliases, library, ch),
        AllJobs(ix, aliases, ch)[i].class_;
    forall c' | c' in specs && CountNamed(specs[c'], k) > 0 ensures c' == c && LastOfClass(jobs, i) {
      HoldsKey(ix, fd, aliases, library, ch, i, id, k, c');
    }
    if LastOfClass(jobs, i) {
      assert OneJob(ix, aliases, id, id);
      Written(ix, fd, aliases, library, ch, i);
      AllJobsWellFormed(ix, aliases, ch);
      JobEntriesCount(ix, fd, jobs, i, ch.sort, k);
    }
  }

  /** With the NVSwitch alias set, a completed generation holds every key of the NVSwitch ids under it, and nowhere
      else. */
  lemma SwitchAliasSpec(ix: Index, fd: bool, aliases: Aliases, library: Library, ch: Choices, id: string, k: string)
    requires Partitioned(ix) && ValidChoices(ix, ch) && DoneUnder(ix, fd, aliases, library, ch)
    requires aliases.nvSwitch != "" && id in ix.nvSwitchDeviceIDs && Lists(ix, id, k)
    ensures OnlyUnder(ix, Output(ix, fd, aliases, library, ch), aliases.nvSwitch, k)
  {
    var jobs := AllJobs(ix, aliases, ch);
    var i := JobOf(ix, aliases, ch, id);
    var last := IdOf(ix, aliases, ch, |jobs| - 1);
    OneJobOnce(ix, aliases, ch, i, id, |jobs| - 1, last);
    KeysUnderClass(ix, fd, aliases, library, ch, i, id, k);
  }

  /** With the GPU alias set, the same holds of the other ids exactly when no NVSwitch id is published under that name
      too. */
  lemma GpuAliasSpec(ix: Index, fd: bool, aliases: Aliases, library: Library, ch: Choices, id: string, k: string)
    requires Partitioned(ix) && ValidChoices(ix, ch) && DoneUnder(ix, fd, aliases, library, ch)
    requires aliases.pgpu != "" && id !in ix.nvSwitchDeviceIDs && Lists(ix, id, k)
    ensures OnlyUnder(ix, Output(ix, fd, aliases, library, ch), aliases.pgpu, k) <==>
            forall id' | id' in ix.deviceMap && id' in ix.nvSwitchDeviceIDs ::
              PublishedName(ix, aliases, ch.lookups(id'), id') != aliases.pgpu
  {
    var jobs := AllJobs(ix, aliases, ch);
    var i := JobOf(ix, aliases, ch, id);
    KeysUnderClass(ix, fd, aliases, library, ch, i, id, k);
    forall j | i < j < |jobs| && jobs[j].class_ == aliases.pgpu
      ensures exists id' | id' in ix.deviceMap && id' in ix.nvSwitchDeviceIDs ::
                PublishedName(ix, aliases, ch.lookups(id'), id') == aliases.pgpu {
      var id' := IdOf(ix, aliases, ch, j);
      if OneJob(ix, aliases, id, id') {
        OneJobOnce(ix, aliases, ch, i, id, j, id');
      }
    }
    forall id' | id' in ix.deviceMap && id' in ix.nvSwitchDeviceIDs
                 && PublishedName(ix, aliases, ch.lookups(id'), id') == aliases.pgpu
      ensures !LastOfClass(jobs, i) {
      var j := JobOf(ix, aliases, ch, id');
    }
  }

  /** Without the alias of its category, an id whose name no other id has holds its keys under its own name. */
  lemma OwnNameSpec(ix: Index, fd: bool, aliases: Aliases, library: Library, ch: Choices, id: string, k: string)
    requires Partitioned(ix) && ValidChoices(ix, ch) && DoneUnder(ix, fd, aliases, library, ch) && Lists(ix, id, k)
    requires (if id in ix.nvSwitchDeviceIDs then aliases.nvSwitch else aliases.pgpu) == ""
    requires forall id' | id' in ix.deviceMap && id' != id ::
               PublishedName(ix, aliases, ch.lookups(id'), id') != NameOrId(ix, ch.lookups(id), id)
    ensures OnlyUnder(ix, Output(ix, fd, aliases, library, ch), NameOrId(ix, ch.lookups(id), id), k)
  {
    var jobs := AllJobs(ix, aliases, ch);
    var i := JobOf(ix, aliases, ch, id);
    forall j | i < j < |jobs| ensures jobs[j].class_ != jobs[i].class_ {
      var id' := IdOf(ix, aliases, ch, j);
      if id' == id {
        OneJobOnce(ix, aliases, ch, i, id, j, id');
      }
    }
    KeysUnderClass(ix, fd, aliases, library, ch, i, id, k);
  }
}
