/** CDI generation: which specs are written for the discovered devices, in what order their entries stand,
    and why none of it depends on Go's map iteration order or on how an unstable sort breaks ties. */
module Cdi {
  import opened Allocation
  import opened Discovery
  import opened Sequences
  import opened Text

  datatype CdiDevice = CdiDevice(name: string, nodes: seq<Path>)

  // ---------------------------------------------------------------- sorting the keys

  function ExtractNumber(s: string): GoInt {
    var n := Atoi(TrimLetters(s));
    if n.Some? then n.value else 0
  }

  /** A machine int reads back from its decimal text, with or without a letter prefix; other integers read as 0. */
  lemma NumberRoundTrip(letters: string, n: int)
    requires forall c | c in letters :: IsLetter(c)
    ensures ExtractNumber(letters + Itoa(n)) == if IsInt64(n) then n else 0
  {
    TrimLettersOfPrefix(letters, Itoa(n));
    AtoiOfItoa(n);
  }

  lemma DecimalReads(n: int)
    ensures ExtractNumber(Itoa(n)) == if IsInt64(n) then n else 0
  {
    NumberRoundTrip("", n);
    assert "" + Itoa(n) == Itoa(n);
  }

  /** Distinct decimal keys are told apart exactly when they are not both read as the same number. */
  lemma DecimalKeysTie(m: int, n: int)
    requires m != n
    ensures Itoa(m) != Itoa(n)
    ensures ExtractNumber(Itoa(m)) == ExtractNumber(Itoa(n))
       <==> (!IsInt64(m) || m == 0) && (!IsInt64(n) || n == 0)
  {
    if Itoa(m) == Itoa(n) {
      ItoaInjective(m, n);
    }
    DecimalReads(m);
    DecimalReads(n);
  }

  ghost predicate IsSortOf(keys: seq<string>, sorted: seq<string>) {
    && multiset(keys) == multiset(sorted)
    && forall i, j | 0 <= i < j < |sorted| :: ExtractNumber(sorted[i]) <= ExtractNumber(sorted[j])
  }

  /** sort.Slice: any function whose result is a sorted permutation, however it breaks ties. */
  type Sorter = seq<string> -> seq<string>

  ghost predicate ValidSorter(sort: Sorter) {
    forall keys :: IsSortOf(keys, sort(keys))
  }

  ghost predicate DistinctNumbers(keys: seq<string>) {
    forall i, j | 0 <= i < j < |keys| :: ExtractNumber(keys[i]) != ExtractNumber(keys[j])
  }

  function Smaller(): (string, string) -> bool {
    (k, k') => ExtractNumber(k) < ExtractNumber(k')
  }

  lemma SortAscends(keys: seq<string>, sorted: seq<string>)
    requires DistinctNumbers(keys) && NoDup(keys) && IsSortOf(keys, sorted)
    ensures Ascending(Smaller(), sorted) && Asymmetric(Smaller(), sorted)
  {
    PermutationNoDup(keys, sorted);
    SameElementsOfPermutation(keys, sorted);
    forall i, j | 0 <= i < j < |sorted| ensures Smaller()(sorted[i], sorted[j]) {
      assert sorted[i] in keys && sorted[j] in keys;
    }
  }

  /** Two sorts of the same keys, whatever order the keys came in, are one sequence. */
  lemma SortsCoincide(keys: seq<string>, keys': seq<string>, a: seq<string>, b: seq<string>)
    requires NoDup(keys) && NoDup(keys') && SameElements(keys, keys') && DistinctNumbers(keys)
    requires IsSortOf(keys, a) && IsSortOf(keys', b)
    ensures a == b
  {
    NoDupPermutation(keys, keys');
    SortAscends(keys, a);
    SortAscends(keys, b);
    SameElementsOfPermutation(a, b);
    AscendingUnique(Smaller(), a, b);
  }

  lemma SwapTie(keys: seq<string>, a: seq<string>, i: nat, j: nat) returns (b: seq<string>)
    requires IsSortOf(keys, a) && i < j < |a| && ExtractNumber(a[i]) == ExtractNumber(a[j])
    ensures b == a[i := a[j]][j := a[i]] && IsSortOf(keys, b)
  {
    b := a[i := a[j]][j := a[i]];
    assert forall p | i <= p <= j :: ExtractNumber(a[p]) == ExtractNumber(a[i]);
    assert forall p | 0 <= p < |a| :: ExtractNumber(b[p]) == ExtractNumber(a[p]);
  }

  /** The order of the entries is determined exactly when no two keys are read as the same number. */
  lemma OrderDeterminedIff(keys: seq<string>, sort: Sorter)
    requires NoDup(keys) && ValidSorter(sort)
    ensures DistinctNumbers(keys) <==>
            forall a, b | IsSortOf(keys, a) && IsSortOf(keys, b) :: a == b
  {
    if DistinctNumbers(keys) {
      forall a, b | IsSortOf(keys, a) && IsSortOf(keys, b) ensures a == b {
        SortsCoincide(keys, keys, a, b);
      }
    } else {
      var i, j :| 0 <= i < j < |keys| && ExtractNumber(keys[i]) == ExtractNumber(keys[j]);
      var a := sort(keys);
      assert IsSortOf(keys, a);
      SameElementsOfPermutation(keys, a);
      assert keys[i] in a && keys[j] in a;
      var p :| 0 <= p < |a| && a[p] == keys[i];
      var q :| 0 <= q < |a| && a[q] == keys[j];
      var b := SwapTie(keys, a, if p < q then p else q, if p < q then q else p);
      assert b[p] != a[p];
    }
  }

  // ---------------------------------------------------------------- the entries of a spec

  function NodesFor(fd: bool, key: string, dev: NvDevice): seq<Path> {
    if fd && dev.iommuFD != "" then [Join(VFIO_DEVICES_DIR, dev.iommuFD)]
    else [CONTROL_NODE, Join(VFIO_DIR, key)]
  }

  /** A device has the node of its handle where IOMMUFD is in use and it has one; otherwise, under IOMMUFD too, the
      control node and the node of its key. */
  lemma NodesForDevice(fd: bool, key: string, dev: NvDevice)
    ensures fd && PlainName(dev.iommuFD) ==> NodesFor(fd, key, dev) == [["dev", "vfio", "devices", dev.iommuFD]]
    ensures (!fd || dev.iommuFD == "") && PlainName(key) ==>
              NodesFor(fd, key, dev) == [["dev", "vfio", "vfio"], ["dev", "vfio", key]]
  {
    VfioPaths(key);
    VfioPaths(dev.iommuFD);
  }

  function BucketEntries(fd: bool, key: string, devices: seq<NvDevice>): (es: seq<CdiDevice>)
    ensures |es| == |devices|
    ensures forall i | 0 <= i < |es| :: es[i] == CdiDevice(key, NodesFor(fd, key, devices[i]))
  {
    if devices == [] then [] else
      var n := |devices| - 1;
      BucketEntries(fd, key, devices[..n]) + [CdiDevice(key, NodesFor(fd, key, devices[n]))]
  }

  lemma BucketEntriesSnoc(fd: bool, key: string, devices: seq<NvDevice>, dev: NvDevice)
    ensures BucketEntries(fd, key, devices + [dev])
         == BucketEntries(fd, key, devices) + [CdiDevice(key, NodesFor(fd, key, dev))]
  {
    assert (devices + [dev])[..|devices|] == devices;
  }

  function BucketAt(ix: Index, key: string): seq<NvDevice> {
    if key in ix.iommuMap then ix.iommuMap[key] else []
  }

  function Entries(ix: Index, fd: bool, keys: seq<string>): seq<CdiDevice> {
    if keys == [] then [] else
      var n := |keys| - 1;
      Entries(ix, fd, keys[..n]) + BucketEntries(fd, keys[n], BucketAt(ix, keys[n]))
  }

  lemma EntriesSnoc(ix: Index, fd: bool, keys: seq<string>, key: string)
    ensures Entries(ix, fd, keys + [key]) == Entries(ix, fd, keys) + BucketEntries(fd, key, BucketAt(ix, key))
  {
    assert (keys + [key])[..|keys|] == keys;
  }

  /** The keys of a spec, sorted, give its entries in ascending order of their numbers. */
  lemma {:induction false} EntriesAscend(ix: Index, fd: bool, keys: seq<string>)
    requires forall i, j | 0 <= i < j < |keys| :: ExtractNumber(keys[i]) <= ExtractNumber(keys[j])
    ensures forall i | 0 <= i < |Entries(ix, fd, keys)| :: Entries(ix, fd, keys)[i].name in keys
    ensures forall i, j | 0 <= i < j < |Entries(ix, fd, keys)| ::
              ExtractNumber(Entries(ix, fd, keys)[i].name) <= ExtractNumber(Entries(ix, fd, keys)[j].name)
  {
    if keys != [] {
      var n := |keys| - 1;
      EntriesAscend(ix, fd, keys[..n]);
      assert forall k | k in keys[..n] :: ExtractNumber(k) <= ExtractNumber(keys[n]);
    }
  }

  /** So whatever the sort does with ties, the names in a spec ascend. */
  lemma SortedEntriesAscend(ix: Index, fd: bool, sort: Sorter, keys: seq<string>, i: nat, j: nat)
    requires ValidSorter(sort) && i < j < |Entries(ix, fd, sort(keys))|
    ensures var entries := Entries(ix, fd, sort(keys));
            ExtractNumber(entries[i].name) <= ExtractNumber(entries[j].name)
  {
    assert IsSortOf(keys, sort(keys));
    EntriesAscend(ix, fd, sort(keys));
  }

  function CountNamed(entries: seq<CdiDevice>, name: string): nat {
    if entries == [] then 0 else
      var n := |entries| - 1;
      CountNamed(entries[..n], name) + if entries[n].name == name then 1 else 0
  }

  lemma {:induction false} CountConcat(a: seq<CdiDevice>, b: seq<CdiDevice>, name: string)
    ensures CountNamed(a + b, name) == CountNamed(a, name) + CountNamed(b, name)
  {
    if b == [] {
      assert a + b == a;
    } else {
      var n := |b| - 1;
      assert (a + b)[..|a| + n] == a + b[..n];
      CountConcat(a, b[..n], name);
    }
  }

  lemma {:induction false} CountUniform(es: seq<CdiDevice>, key: string, name: string)
    requires forall i | 0 <= i < |es| :: es[i].name == key
    ensures CountNamed(es, name) == if name == key then |es| else 0
  {
    if es != [] {
      CountUniform(es[..|es| - 1], key, name);
    }
  }

  /** A key in scope has one entry for each device of its bucket; other names have none. */
  lemma {:induction false} EntriesCount(ix: Index, fd: bool, keys: seq<string>, name: string)
    requires NoDup(keys)
    ensures CountNamed(Entries(ix, fd, keys), name) == if name in keys then |BucketAt(ix, name)| else 0
  {
    if keys != [] {
      var n := |keys| - 1;
      var last := BucketEntries(fd, keys[n], BucketAt(ix, keys[n]));
      EntriesCount(ix, fd, keys[..n], name);
      CountConcat(Entries(ix, fd, keys[..n]), last, name);
      CountUniform(last, keys[n], name);
      assert forall k :: k in keys <==> k in keys[..n] || k == keys[n];
    }
  }

  lemma {:induction false} EntriesTotal(ix: Index, fd: bool, keys: seq<string>)
    ensures |Entries(ix, fd, keys)| == Sum(SizeIn(ix), keys)
  {
    if keys != [] {
      var n := |keys| - 1;
      EntriesTotal(ix, fd, keys[..n]);
      SumConcat(SizeIn(ix), keys[..n], [keys[n]]);
      assert keys == keys[..n] + [keys[n]];
    }
  }

  // ---------------------------------------------------------------- names within a spec

  ghost predicate NamesUnique(entries: seq<CdiDevice>) {
    forall i, j | 0 <= i < j < |entries| :: entries[i].name != entries[j].name
  }

  lemma {:induction false} CountPositive(entries: seq<CdiDevice>, i: nat)
    requires i < |entries|
    ensures CountNamed(entries, entries[i].name) > 0
  {
    if i < |entries| - 1 {
      CountPositive(entries[..|entries| - 1], i);
    }
  }

  lemma {:induction false} CountedAt(entries: seq<CdiDevice>, name: string) returns (i: nat)
    requires CountNamed(entries, name) > 0
    ensures i < |entries| && entries[i].name == name
  {
    var n := |entries| - 1;
    if entries[n].name == name {
      i := n;
    } else {
      i := CountedAt(entries[..n], name);
    }
  }

  lemma {:induction false} UniqueIffCounts(entries: seq<CdiDevice>)
    ensures NamesUnique(entries) <==> forall name :: CountNamed(entries, name) <= 1
  {
    if entries != [] {
      var n := |entries| - 1;
      var init, last := entries[..n], entries[n].name;
      UniqueIffCounts(init);
      if NamesUnique(entries) {
        assert NamesUnique(init);
        forall name ensures CountNamed(entries, name) <= 1 {
          assert CountNamed(entries, name) == CountNamed(init, name) + if last == name then 1 else 0;
          if name == last && CountNamed(init, name) > 0 {
            var i := CountedAt(init, name);
            assert false;
          }
        }
      } else if NamesUnique(init) {
        var i :| 0 <= i < n && entries[i].name == last;
        CountPositive(init, i);
        assert CountNamed(entries, last) > 1;
      } else {
        var name :| CountNamed(init, name) > 1;
        assert CountNamed(entries, name) > 1;
      }
    }
  }

  /** Names within a spec are unique exactly when every bucket in scope has at most one device. */
  lemma EntryNamesUnique(ix: Index, fd: bool, keys: seq<string>)
    requires NoDup(keys)
    ensures NamesUnique(Entries(ix, fd, keys)) <==> forall k | k in keys :: |BucketAt(ix, k)| <= 1
  {
    var entries := Entries(ix, fd, keys);
    UniqueIffCounts(entries);
    forall name ensures CountNamed(entries, name) == if name in keys then |BucketAt(ix, name)| else 0 {
      EntriesCount(ix, fd, keys, name);
    }
    if NamesUnique(entries) {
      forall k | k in keys ensures |BucketAt(ix, k)| <= 1 {
        assert CountNamed(entries, k) <= 1;
      }
    }
  }

  // ---------------------------------------------------------------- agreement with allocation

  predicate EntryNode(ix: Index, fd: bool, key: string, path: Path)
    requires key in ix.iommuMap
  {
    exists e, p | 0 <= e < |ix.iommuMap[key]| && 0 <= p < |BucketEntries(fd, key, ix.iommuMap[key])[e].nodes| ::
      BucketEntries(fd, key, ix.iommuMap[key])[e].nodes[p] == path
  }

  lemma {:induction false} HandleNodesAt(devices: seq<NvDevice>, i: nat)
    requires i < |devices|
    ensures HandleNodes(devices)[i] == NodeAt(Join(VFIO_DEVICES_DIR, devices[i].iommuFD))
  {
    if i < |devices| - 1 {
      HandleNodesAt(devices[..|devices| - 1], i);
    }
  }

  /** For a grantable key the device nodes of its CDI entries are exactly the host paths allocation hands out. */
  lemma CdiAgreesWithAllocate(ix: Index, fd: bool, key: string, path: Path)
    requires key in ix.iommuMap && ix.iommuMap[key] != [] && Grantable(ix.iommuMap, fd, key)
    ensures EntryNode(ix, fd, key, path)
       <==> exists n | 0 <= n < |NodesOf(ix.iommuMap, fd, key)| :: NodesOf(ix.iommuMap, fd, key)[n].hostPath == path
  {
    var devices := ix.iommuMap[key];
    var entries, nodes := BucketEntries(fd, key, devices), NodesOf(ix.iommuMap, fd, key);
    if fd {
      forall i | 0 <= i < |devices| ensures entries[i].nodes == [nodes[i].hostPath] {
        HandleNodesAt(devices, i);
      }
      if n :| 0 <= n < |nodes| && nodes[n].hostPath == path {
        assert entries[n].nodes[0] == path;
      }
    } else {
      forall i | 0 <= i < |devices| ensures entries[i].nodes == [nodes[0].hostPath, nodes[1].hostPath] {}
      if n :| 0 <= n < |nodes| && nodes[n].hostPath == path {
        assert entries[0].nodes[n] == path;
      }
    }
  }
}
