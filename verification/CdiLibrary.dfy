/** What the CDI library accepts, and so exactly when generation completes. */
module CdiLibrary {
  import opened Cdi
  import opened Discovery
  import opened Generation
  import opened GenerationChoices
  import opened GenerationProperties
  import opened Naming
  import opened Sequences
  import opened Text

  // ---------------------------------------------------------------- device names

  predicate IsAlphaNumeric(c: char) {
    IsLetter(c) || IsDigit(c)
  }

  /** Letters and digits, with underscore, dash, dot and colon in between. */
  predicate ValidDeviceName(name: string) {
    && name != "" && IsAlphaNumeric(name[0]) && IsAlphaNumeric(name[|name| - 1])
    && forall i | 1 <= i < |name| - 1 :: IsAlphaNumeric(name[i]) || name[i] in "_-.:"
  }

  ghost predicate AllValid(entries: seq<CdiDevice>) {
    forall i | 0 <= i < |entries| :: ValidDeviceName(entries[i].name) && entries[i].nodes != []
  }

  /** Some devices, no name twice, every name valid, and no device without nodes. */
  ghost predicate ContentAccepted(entries: seq<CdiDevice>) {
    entries != [] && NamesUnique(entries) && AllValid(entries)
  }

  /** The library refuses a spec for its content or for its class. */
  ghost predicate ChecksContent(library: Library, otherwise: string -> bool) {
    forall c: string, entries: seq<CdiDevice> {:trigger library(c, entries)} ::
      library(c, entries) <==> ContentAccepted(entries) && otherwise(c)
  }

  /** A decimal key is a valid name exactly when the number is not negative. */
  lemma DecimalName(n: int)
    ensures ValidDeviceName(Itoa(n)) <==> n >= 0
  {}

  // ---------------------------------------------------------------- when generation completes

  lemma {:induction false} EntriesNamed(ix: Index, fd: bool, keys: seq<string>)
    ensures forall i | 0 <= i < |Entries(ix, fd, keys)| ::
              Entries(ix, fd, keys)[i].name in keys && Entries(ix, fd, keys)[i].nodes != []
  {
    if keys != [] {
      EntriesNamed(ix, fd, keys[..|keys| - 1]);
    }
  }

  /** One entry at least bears the name of each key that has a device. */
  lemma NamedInEntries(ix: Index, fd: bool, keys: seq<string>, k: string) returns (i: nat)
    requires NoDup(keys) && k in keys && BucketAt(ix, k) != []
    ensures i < |Entries(ix, fd, keys)| && Entries(ix, fd, keys)[i].name == k
  {
    EntriesCount(ix, fd, keys, k);
    i := CountedAt(Entries(ix, fd, keys), k);
  }

  /** The names are valid exactly when the keys are. */
  lemma EntriesValid(ix: Index, fd: bool, keys: seq<string>)
    requires NoDup(keys) && forall k | k in keys :: BucketAt(ix, k) != []
    ensures AllValid(Entries(ix, fd, keys)) <==> forall k | k in keys :: ValidDeviceName(k)
  {
    var entries := Entries(ix, fd, keys);
    EntriesNamed(ix, fd, keys);
    if AllValid(entries) {
      forall k | k in keys ensures ValidDeviceName(k) {
        var n := NamedInEntries(ix, fd, keys, k);
        assert ValidDeviceName(entries[n].name);
      }
    }
  }

  lemma JobAccepted(ix: Index, fd: bool, jobs: seq<Job>, i: nat, sort: Sorter, library: Library,
                    otherwise: string -> bool)
    requires Partitioned(ix) && WellFormedJobs(ix, jobs) && ValidSorter(sort) && i < |jobs|
    requires ChecksContent(library, otherwise)
    ensures Accepted(ix, fd, sort, library, jobs[i]) <==>
            (forall k | k in jobs[i].keys :: |BucketAt(ix, k)| <= 1 && ValidDeviceName(k)) && otherwise(jobs[i].class_)
  {
    var keys := sort(jobs[i].keys);
    SortedJob(ix, jobs, i, sort);
    JobEntriesCount(ix, fd, jobs, i, sort, "");
    assert forall k | k in keys :: k in jobs[i].keys && BucketAt(ix, k) != [];
    EntryNamesUnique(ix, fd, keys);
    EntriesValid(ix, fd, keys);
    assert ContentAccepted(Entries(ix, fd, keys)) <==>
             NamesUnique(Entries(ix, fd, keys)) && AllValid(Entries(ix, fd, keys));
    assert forall k | k in jobs[i].keys :: k in keys;
  }

  /** Every bucket holds one device, and every key is a valid device name. */
  ghost predicate KeysAcceptable(ix: Index) {
    forall k | k in ix.iommuMap :: |ix.iommuMap[k]| == 1 && ValidDeviceName(k)
  }

  /** Generation completes, under whatever choices, exactly when every bucket holds one device, every key is a valid
      device name, and every class passes the other checks. */
  lemma CompletesIffAcceptable(ix: Index, fd: bool, aliases: Aliases, ch: Choices, library: Library,
                               otherwise: string -> bool,
                               specs: Specs)
    requires Partitioned(ix) && ValidChoices(ix, ch) && ChecksContent(library, otherwise)
    ensures Completes(ix, fd, ch.sort, library, AllJobs(ix, aliases, ch), specs) <==>
            KeysAcceptable(ix) && forall i | 0 <= i < |AllJobs(ix, aliases, ch)| ::
                otherwise(AllJobs(ix, aliases, ch)[i].class_)
  {
    var jobs := AllJobs(ix, aliases, ch);
    AllJobsWellFormed(ix, aliases, ch);
    AllNothingEmpty(ix, fd, aliases, ch);
    CompletesIff(ix, fd, ch.sort, library, jobs, specs);
    forall i | 0 <= i < |jobs|
      ensures Accepted(ix, fd, ch.sort, library, jobs[i]) <==>
              (forall k | k in jobs[i].keys :: |BucketAt(ix, k)| <= 1 && ValidDeviceName(k))
                && otherwise(jobs[i].class_) {
      JobAccepted(ix, fd, jobs, i, ch.sort, library, otherwise);
    }
    forall k | k in ix.iommuMap ensures exists i | 0 <= i < |jobs| :: k in jobs[i].keys {
      JobKeysMember(jobs, k);
    }
    forall i, k | 0 <= i < |jobs| && k in jobs[i].keys ensures k in ix.iommuMap {
      SortedJob(ix, jobs, i, ch.sort);
    }
  }

  /** Where every class passes, generation completes under all choices exactly when the keys are acceptable. */
  lemma AlwaysCompletesIff(ix: Index, fd: bool, aliases: Aliases, library: Library, ch: Choices)
    requires Partitioned(ix) && ValidChoices(ix, ch) && ChecksContent(library, c => true)
    ensures AlwaysCompletes(ix, fd, aliases, library) <==> KeysAcceptable(ix)
  {
    CompletesIffAcceptable(ix, fd, aliases, ch, library, c => true, map[]);
    forall ch' | ValidChoices(ix, ch')
      ensures Completes(ix, fd, ch'.sort, library, AllJobs(ix, aliases, ch'), map[]) <==> KeysAcceptable(ix) {
      CompletesIffAcceptable(ix, fd, aliases, ch', library, c => true, map[]);
    }
  }

  // ---------------------------------------------------------------- which scans that admits

  /** A bucket holds one device exactly when its key occurs at one position of the scan. */
  lemma {:induction false} OneInBucket(fd: bool, devs: seq<PciDevice>, k: string)
    ensures |Bucket(fd, devs, k)| <= 1 <==>
              forall i, j | 0 <= i < j < |devs| :: !(HasKey(fd, devs, i, k) && HasKey(fd, devs, j, k))
  {
    if devs != [] {
      var n := |devs| - 1;
      var init := devs[..n];
      OneInBucket(fd, init, k);
      BucketNonEmpty(fd, init, k);
      assert forall i | 0 <= i < n :: HasKey(fd, init, i, k) == HasKey(fd, devs, i, k);
      if HasKey(fd, devs, n, k) && Occurs(fd, init, k) {
        var i :| 0 <= i < n && HasKey(fd, init, i, k);
        assert HasKey(fd, devs, i, k) && HasKey(fd, devs, n, k);
      }
    }
  }

  /** No two eligible devices have one key, and each key is a valid device name. */
  ghost predicate ScanAcceptable(fd: bool, devs: seq<PciDevice>) {
    && (forall i, j | 0 <= i < j < |devs| && devs[i].Eligible() && devs[j].Eligible() ::
         devs[i].Key(fd) != devs[j].Key(fd))
    && (forall i | 0 <= i < |devs| && devs[i].Eligible() :: ValidDeviceName(devs[i].Key(fd)))
  }

  lemma AcceptableScan(ix: Index, fd: bool, devs: seq<PciDevice>)
    requires SpecifiedBy(ix, fd, devs)
    ensures KeysAcceptable(ix) <==> ScanAcceptable(fd, devs)
  {
    forall k ensures k in ix.iommuMap ==>
                       ix.iommuMap[k] == Bucket(fd, devs, k) != []
                       && (|ix.iommuMap[k]| <= 1 <==>
                           forall i, j | 0 <= i < j < |devs| :: !(HasKey(fd, devs, i, k) && HasKey(fd, devs, j, k))) {
      BucketNonEmpty(fd, devs, k);
      OneInBucket(fd, devs, k);
    }
    forall i | 0 <= i < |devs| && devs[i].Eligible()
      ensures devs[i].Key(fd) in ix.iommuMap && HasKey(fd, devs, i, devs[i].Key(fd)) {
      assert HasKey(fd, devs, i, devs[i].Key(fd));
    }
    forall k | k in ix.iommuMap ensures exists i | 0 <= i < |devs| :: HasKey(fd, devs, i, k) {
      assert Occurs(fd, devs, k);
    }
  }

  /** In legacy mode: no IOMMU group with two devices, and none with a negative number. */
  lemma LegacyScanAcceptable(devs: seq<PciDevice>)
    ensures ScanAcceptable(false, devs) <==>
            && (forall i, j | 0 <= i < j < |devs| && devs[i].Eligible() && devs[j].Eligible() ::
                  devs[i].iommuGroup != devs[j].iommuGroup)
            && (forall i | 0 <= i < |devs| && devs[i].Eligible() :: devs[i].iommuGroup >= 0)
  {
    forall i | 0 <= i < |devs| ensures ValidDeviceName(devs[i].Key(false)) <==> devs[i].iommuGroup >= 0 {
      DecimalName(devs[i].iommuGroup);
    }
    forall i, j | 0 <= i < |devs| && 0 <= j < |devs| && devs[i].Key(false) == devs[j].Key(false)
      ensures devs[i].iommuGroup == devs[j].iommuGroup {
      ItoaInjective(devs[i].iommuGroup, devs[j].iommuGroup);
    }
  }

  /** A device without an IOMMU group, which the scan reports as group -1, makes generation fail; so does a handle that
      is the bare prefix. */
  lemma UnnamedKeysFail(ix: Index, fd: bool, devs: seq<PciDevice>, i: nat, aliases: Aliases, ch: Choices,
                        library: Library,
                        otherwise: string -> bool, specs: Specs)
    requires SpecifiedBy(ix, fd, devs) && ValidChoices(ix, ch) && ChecksContent(library, otherwise)
    requires i < |devs| && devs[i].Eligible()
    requires if fd && devs[i].iommuFD != "" then devs[i].iommuFD == "vfio" else devs[i].iommuGroup == -1
    ensures devs[i].Key(fd) == if fd && devs[i].iommuFD != "" then "" else "-1"
    ensures !Completes(ix, fd, ch.sort, library, AllJobs(ix, aliases, ch), specs)
  {
    var k := devs[i].Key(fd);
    DiscoveryPartitions(ix, fd, devs);
    DecimalName(-1);
    assert Decimal(1) == "1";
    assert HasKey(fd, devs, i, k);
    assert k in ix.iommuMap && !ValidDeviceName(k);
    assert !KeysAcceptable(ix);
    CompletesIffAcceptable(ix, fd, aliases, ch, library, otherwise, specs);
  }
}
