/** Resource and class names: the regular-expression passes over a device name, and the choice of the name
    under which the devices of one id are published. */
module Naming {
  import opened Discovery
  import opened Sequences
  import opened Text

  // ---------------------------------------------------------------- the passes of formatDeviceName

  /** \s of Go's regular expressions. */
  predicate IsSpace(c: char) {
    c in " \t\n\r" || c as int == 0x0c
  }

  /** Upper case of the ASCII letters; every other character is caseless. */
  function Upper(c: char): char {
    if 'a' <= c <= 'z' then 'A' + (c - 'a') else c
  }

  predicate IsKept(c: char) {
    IsLetter(c) || IsDigit(c) || c in "_-"
  }

  function ToUpper(s: string): string {
    if s == "" then "" else [Upper(s[0])] + ToUpper(s[1..])
  }

  function ReplaceAll(s: string, what: char): string {
    if s == "" then "" else [if s[0] == what then '_' else s[0]] + ReplaceAll(s[1..], what)
  }

  function SkipSpaces(s: string): (r: string)
    ensures |r| <= |s|
  {
    if s != "" && IsSpace(s[0]) then SkipSpaces(s[1..]) else s
  }

  /** Each maximal run of white space becomes one underscore. */
  function CollapseSpaces(s: string): string
    decreases |s|
  {
    if s == "" then ""
    else if IsSpace(s[0]) then "_" + CollapseSpaces(SkipSpaces(s[1..]))
    else [s[0]] + CollapseSpaces(s[1..])
  }

  function Strip(s: string): string {
    if s == "" then "" else (if IsKept(s[0]) then [s[0]] else "") + Strip(s[1..])
  }

  function FormatDeviceName(name: string): string {
    Strip(CollapseSpaces(ReplaceAll(ReplaceAll(ToUpper(name), '/'), '.')))
  }

  // ---------------------------------------------------------------- one pass, one bit of state

  /** What one character contributes, given whether the previous one was white space. */
  function Emit(c: char, afterSpace: bool): string {
    if IsSpace(c) then (if afterSpace then "" else "_")
    else if c == '/' || c == '.' then "_"
    else if IsKept(c) then [Upper(c)]
    else ""
  }

  function Transduce(s: string, afterSpace: bool): string {
    if s == "" then "" else Emit(s[0], afterSpace) + Transduce(s[1..], IsSpace(s[0]))
  }

  function Mapped(s: string): string {
    ReplaceAll(ReplaceAll(ToUpper(s), '/'), '.')
  }

  lemma MappedStep(s: string)
    requires s != ""
    ensures Mapped(s) == [if Upper(s[0]) == '/' || Upper(s[0]) == '.' then '_' else Upper(s[0])] + Mapped(s[1..])
  {
    var u := ToUpper(s);
    assert u[1..] == ToUpper(s[1..]);
    var v := ReplaceAll(u, '/');
    assert v[1..] == ReplaceAll(u[1..], '/');
  }

  lemma UpperKeepsClass(c: char)
    ensures IsSpace(Upper(c)) == IsSpace(c) && IsKept(Upper(c)) == IsKept(c)
    ensures Upper(c) == '/' <==> c == '/'
    ensures Upper(c) == '.' <==> c == '.'
  {}

  lemma StripStep(c: char, rest: string)
    ensures Strip([c] + rest) == (if IsKept(c) then [c] else "") + Strip(rest)
  {
    assert ([c] + rest)[1..] == rest;
  }

  /** What the passes make of the first character. */
  lemma FirstCharacter(s: string)
    requires s != ""
    ensures SkipSpaces(Mapped(s)) == if IsSpace(s[0]) then SkipSpaces(Mapped(s[1..])) else Mapped(s)
    ensures var rest := if IsSpace(s[0]) then SkipSpaces(Mapped(s[1..])) else Mapped(s[1..]);
            Strip(CollapseSpaces(Mapped(s))) == Emit(s[0], false) + Strip(CollapseSpaces(rest))
  {
    MappedStep(s);
    UpperKeepsClass(s[0]);
    var m, rest := Mapped(s), Mapped(s[1..]);
    assert m[1..] == rest;
    if IsSpace(s[0]) {
      StripStep('_', CollapseSpaces(SkipSpaces(rest)));
    } else {
      StripStep(m[0], CollapseSpaces(rest));
    }
  }

  /** The passes equal the transducer; started after white space it skips the rest of the run. */
  lemma {:induction false} PassesAreTransducer(s: string)
    ensures Strip(CollapseSpaces(Mapped(s))) == Transduce(s, false)
    ensures Strip(CollapseSpaces(SkipSpaces(Mapped(s)))) == Transduce(s, true)
  {
    if s != "" {
      FirstCharacter(s);
      PassesAreTransducer(s[1..]);
    }
  }

  lemma FormatIsTransducer(name: string)
    ensures FormatDeviceName(name) == Transduce(name, false)
  {
    PassesAreTransducer(name);
  }

  // ---------------------------------------------------------------- consequences

  predicate IsResourceChar(c: char) {
    'A' <= c <= 'Z' || IsDigit(c) || c in "_-"
  }

  lemma {:induction false} TransduceShape(s: string, afterSpace: bool)
    ensures |Transduce(s, afterSpace)| <= |s|
    ensures forall c | c in Transduce(s, afterSpace) :: IsResourceChar(c)
  {
    if s != "" {
      TransduceShape(s[1..], IsSpace(s[0]));
    }
  }

  lemma EmitFixed(c: char, afterSpace: bool)
    requires IsResourceChar(c)
    ensures Emit(c, afterSpace) == [c] && !IsSpace(c)
  {}

  lemma {:induction false} TransduceFixed(s: string)
    requires forall c | c in s :: IsResourceChar(c)
    ensures Transduce(s, false) == s
  {
    if s != "" {
      assert s[0] in s && forall c | c in s[1..] :: c in s;
      EmitFixed(s[0], false);
      TransduceFixed(s[1..]);
      assert s == [s[0]] + s[1..];
    }
  }

  /** The result is a short enough name over [A-Z0-9_-], and formatting it again changes nothing. */
  lemma FormatNormalises(name: string)
    ensures forall c | c in FormatDeviceName(name) :: IsResourceChar(c)
    ensures |FormatDeviceName(name)| <= |name|
    ensures FormatDeviceName(FormatDeviceName(name)) == FormatDeviceName(name)
  {
    FormatIsTransducer(name);
    TransduceShape(name, false);
    TransduceFixed(FormatDeviceName(name));
    FormatIsTransducer(FormatDeviceName(name));
  }

  predicate SpaceMeetsSpace(a: string, b: string) {
    a != "" && b != "" && IsSpace(a[|a| - 1]) && IsSpace(b[0])
  }

  lemma {:induction false} TransduceConcat(a: string, b: string, afterSpace: bool)
    ensures Transduce(a + b, afterSpace)
         == Transduce(a, afterSpace) + Transduce(b, if a == "" then afterSpace else IsSpace(a[|a| - 1]))
  {
    if a == "" {
      assert a + b == b;
    } else {
      assert (a + b)[1..] == a[1..] + b;
      TransduceConcat(a[1..], b, IsSpace(a[0]));
    }
  }

  /** Formatting distributes over a join exactly when no run of white space crosses it. */
  lemma FormatConcat(a: string, b: string)
    ensures FormatDeviceName(a + b) == FormatDeviceName(a) + FormatDeviceName(b) <==> !SpaceMeetsSpace(a, b)
  {
    FormatIsTransducer(a);
    FormatIsTransducer(b);
    FormatIsTransducer(a + b);
    TransduceConcat(a, b, false);
    if b != "" {
      assert Transduce(b, true) == Emit(b[0], true) + Transduce(b[1..], IsSpace(b[0]));
      assert Transduce(b, false) == Emit(b[0], false) + Transduce(b[1..], IsSpace(b[0]));
    }
  }

  /** What a name of one character becomes; with `FormatConcat` this says what every name becomes. */
  lemma FormatCharacter(c: char)
    ensures var f := FormatDeviceName([c]);
            && ('a' <= c <= 'z' ==> |f| == 1 && f[0] as int == c as int - 0x20)
            && ('A' <= c <= 'Z' || '0' <= c <= '9' || c == '_' || c == '-' ==> f == [c])
            && (c == ' ' || c == '\t' || c == '\n' || c == '\r' || c as int == 0x0c || c == '/' || c == '.' ==>
                 f == "_")
            && (f == "" <==> !(('a' <= c <= 'z') || ('A' <= c <= 'Z') || ('0' <= c <= '9') || c as int == 0x0c
                               || c in [' ', '\t', '\n', '\r', '/', '.', '_', '-']))
  {
    FormatIsTransducer([c]);
    assert [c][1..] == "";
    assert FormatDeviceName([c]) == Emit(c, false) + "";
  }

  // ---------------------------------------------------------------- the name for a device id

  /** The name of the first device with this id in a bucket. */
  function FirstName(bucket: seq<NvDevice>, id: string): Option<string> {
    if bucket == [] then None
    else if Hex4(bucket[0].deviceID) == id then Some(FormatDeviceName(bucket[0].deviceName))
    else FirstName(bucket[1..], id)
  }

  /** The first device with the id gives the name. */
  lemma {:induction false} FirstNameIsFirst(bucket: seq<NvDevice>, id: string, i: nat)
    requires i < |bucket| && Hex4(bucket[i].deviceID) == id
    requires forall j | 0 <= j < i :: Hex4(bucket[j].deviceID) != id
    ensures FirstName(bucket, id) == Some(FormatDeviceName(bucket[i].deviceName))
  {
    if i > 0 {
      FirstNameIsFirst(bucket[1..], id, i - 1);
    }
  }

  /** The lookup, over the order in which the index happens to be visited; empty when no device has the id. */
  function NameForId(ix: Index, order: seq<string>, id: string): string {
    if order == [] then ""
    else
      var found := if order[0] in ix.iommuMap then FirstName(ix.iommuMap[order[0]], id) else None;
      if found.Some? then found.value else NameForId(ix, order[1..], id)
  }

  /** Every bucket that holds a device with the id offers the same name for it. */
  ghost predicate NamesAgree(ix: Index, id: string) {
    forall k, k' | k in ix.iommuMap && k' in ix.iommuMap
                   && FirstName(ix.iommuMap[k], id).Some? && FirstName(ix.iommuMap[k'], id).Some? ::
      FirstName(ix.iommuMap[k], id) == FirstName(ix.iommuMap[k'], id)
  }

  lemma {:induction false} NameIsOffered(ix: Index, order: seq<string>, id: string)
    ensures (exists k | k in order ::
              k in ix.iommuMap && FirstName(ix.iommuMap[k], id) == Some(NameForId(ix, order, id)))
         || (NameForId(ix, order, id) == ""
             && forall k | k in order && k in ix.iommuMap :: FirstName(ix.iommuMap[k], id).None?)
  {
    if order != [] {
      NameIsOffered(ix, order[1..], id);
      assert forall k :: k in order <==> k == order[0] || k in order[1..];
    }
  }

  /** The name does not depend on the order exactly when the buckets agree on it. */
  lemma NameOrderFree(ix: Index, id: string)
    ensures NamesAgree(ix, id) <==>
            forall o, o' | IterationOf(o, ix.iommuMap.Keys) && IterationOf(o', ix.iommuMap.Keys) ::
              NameForId(ix, o, id) == NameForId(ix, o', id)
  {
    if NamesAgree(ix, id) {
      forall o, o' | IterationOf(o, ix.iommuMap.Keys) && IterationOf(o', ix.iommuMap.Keys)
        ensures NameForId(ix, o, id) == NameForId(ix, o', id) {
        NameIsOffered(ix, o, id);
        NameIsOffered(ix, o', id);
      }
    } else {
      var k, k' :| k in ix.iommuMap && k' in ix.iommuMap
                   && FirstName(ix.iommuMap[k], id).Some? && FirstName(ix.iommuMap[k'], id).Some?
                   && FirstName(ix.iommuMap[k], id) != FirstName(ix.iommuMap[k'], id);
      var o := OrderFrom(k, ix.iommuMap.Keys);
      var o' := OrderFrom(k', ix.iommuMap.Keys);
      assert NameForId(ix, o, id) != NameForId(ix, o', id);
    }
  }

  ghost predicate OneNamePerId(devs: seq<PciDevice>) {
    forall i, j | 0 <= i < |devs| && 0 <= j < |devs| && devs[i].Eligible() && devs[j].Eligible()
                  && devs[i].device == devs[j].device :: devs[i].deviceName == devs[j].deviceName
  }

  lemma {:induction false} FirstNameSource(bucket: seq<NvDevice>, id: string)
    ensures match FirstName(bucket, id)
            case None => forall r | r in bucket :: Hex4(r.deviceID) != id
            case Some(name) => exists r | r in bucket ::
                Hex4(r.deviceID) == id && name == FormatDeviceName(r.deviceName)
  {
    if bucket != [] {
      FirstNameSource(bucket[1..], id);
      assert forall r :: r in bucket <==> r == bucket[0] || r in bucket[1..];
    }
  }

  /** Where the scan gives each device id one name, every id has one published name. */
  lemma OneNameAgrees(ix: Index, fd: bool, devs: seq<PciDevice>, id: string)
    requires SpecifiedBy(ix, fd, devs) && OneNamePerId(devs)
    ensures NamesAgree(ix, id)
  {
    forall k, k' | k in ix.iommuMap && k' in ix.iommuMap
                   && FirstName(ix.iommuMap[k], id).Some? && FirstName(ix.iommuMap[k'], id).Some?
      ensures FirstName(ix.iommuMap[k], id) == FirstName(ix.iommuMap[k'], id) {
      FirstNameSource(ix.iommuMap[k], id);
      FirstNameSource(ix.iommuMap[k'], id);
      var r :| r in ix.iommuMap[k] && Hex4(r.deviceID) == id
               && FirstName(ix.iommuMap[k], id).value == FormatDeviceName(r.deviceName);
      var r' :| r' in ix.iommuMap[k'] && Hex4(r'.deviceID) == id
                && FirstName(ix.iommuMap[k'], id).value == FormatDeviceName(r'.deviceName);
      BucketMember(fd, devs, k, r);
      BucketMember(fd, devs, k', r');
      Hex4Injective(r.deviceID, r'.deviceID);
    }
  }

  // ---------------------------------------------------------------- classes and resources

  /** P_GPU_ALIAS and NVSWITCH_ALIAS; empty when unset. */
  datatype Aliases = Aliases(pgpu: string, nvSwitch: string) {
    function For(isSwitch: bool): string {
      if isSwitch then nvSwitch else pgpu
    }
  }

  function OrId(name: string, id: string): string {
    if name == "" then id else name
  }

  /** The looked-up name, or the id itself where the lookup yields nothing. */
  function NameOrId(ix: Index, order: seq<string>, id: string): string {
    OrId(NameForId(ix, order, id), id)
  }

  /** Some bucket offers the name, or none offers any and it is the id. */
  ghost predicate CanBeNamed(ix: Index, id: string, c: string) {
    || (exists k | k in ix.iommuMap ::
          FirstName(ix.iommuMap[k], id).Some? && c == OrId(FirstName(ix.iommuMap[k], id).value, id))
    || ((forall k | k in ix.iommuMap :: FirstName(ix.iommuMap[k], id).None?) && c == id)
  }

  /** A name is found under some order of visiting the index exactly when it can be the id's name. */
  lemma NamedUnder(ix: Index, order: seq<string>, id: string)
    requires IterationOf(order, ix.iommuMap.Keys)
    ensures CanBeNamed(ix, id, NameOrId(ix, order, id))
  {
    NameIsOffered(ix, order, id);
    if k :| k in order && k in ix.iommuMap && FirstName(ix.iommuMap[k], id) == Some(NameForId(ix, order, id)) {
    } else {
      forall k | k in ix.iommuMap ensures FirstName(ix.iommuMap[k], id).None? {
        assert k in order;
      }
    }
  }

  lemma NameChosen(ix: Index, some: seq<string>, id: string, c: string) returns (order: seq<string>)
    requires IterationOf(some, ix.iommuMap.Keys) && CanBeNamed(ix, id, c)
    ensures IterationOf(order, ix.iommuMap.Keys) && NameOrId(ix, order, id) == c
  {
    if k :| k in ix.iommuMap && FirstName(ix.iommuMap[k], id).Some?
            && c == OrId(FirstName(ix.iommuMap[k], id).value, id) {
      order := OrderFrom(k, ix.iommuMap.Keys);
    } else {
      order := some;
      NameIsOffered(ix, order, id);
    }
  }

  /** The alias of the id's category, or else its own name. */
  function PublishedName(ix: Index, aliases: Aliases, order: seq<string>, id: string): string {
    var alias := aliases.For(id in ix.nvSwitchDeviceIDs);
    if alias != "" then alias else NameOrId(ix, order, id)
  }

  /** The visiting order of the index used by the name lookup for each id. */
  type Lookups = string -> seq<string>

  ghost predicate ValidLookups(ix: Index, lookups: Lookups) {
    forall id :: IterationOf(lookups(id), ix.iommuMap.Keys)
  }

  lemma PublishedNameOrderFree(ix: Index, aliases: Aliases, l: Lookups, l': Lookups, id: string)
    requires ValidLookups(ix, l) && ValidLookups(ix, l')
    requires aliases.For(id in ix.nvSwitchDeviceIDs) == "" ==> NamesAgree(ix, id)
    ensures PublishedName(ix, aliases, l(id), id) == PublishedName(ix, aliases, l'(id), id)
  {
    NameOrderFree(ix, id);
  }

  // ---------------------------------------------------------------- who is published as what

  /** The formatted name of some device with the id, or the id itself where that name formats to nothing. */
  ghost predicate IsOwnName(devs: seq<PciDevice>, id: string, name: string) {
    exists i | 0 <= i < |devs| ::
      devs[i].Eligible() && Hex4(devs[i].device) == id
      && name == if FormatDeviceName(devs[i].deviceName) == "" then id else FormatDeviceName(devs[i].deviceName)
  }

  /** A listed id has a device in some bucket, so the lookup finds a name. */
  lemma ListedIdOffered(ix: Index, fd: bool, devs: seq<PciDevice>, id: string) returns (k: string)
    requires SpecifiedBy(ix, fd, devs) && id in ix.deviceMap
    ensures k in ix.iommuMap && FirstName(ix.iommuMap[k], id).Some?
  {
    k := ix.deviceMap[id][0];
    assert k in KeysFor(fd, devs, id);
    ListedUnderFirstId(fd, devs, id, k);
    var i :| 0 <= i < |devs| && FirstAt(fd, devs, k, i) && devs[i].Id() == id;
    assert HasKey(fd, devs, i, k) && Occurs(fd, devs, k);
    BucketMember(fd, devs, k, devs[i].Record());
    FirstNameSource(ix.iommuMap[k], id);
    assert devs[i].Record() in ix.iommuMap[k] && Hex4(devs[i].Record().deviceID) == id;
  }

  lemma OwnName(ix: Index, fd: bool, devs: seq<PciDevice>, order: seq<string>, id: string)
    requires SpecifiedBy(ix, fd, devs) && IterationOf(order, ix.iommuMap.Keys) && id in ix.deviceMap
    ensures IsOwnName(devs, id, NameOrId(ix, order, id))
  {
    var offered := ListedIdOffered(ix, fd, devs, id);
    NameIsOffered(ix, order, id);
    assert offered in order;
    var k :| k in order && k in ix.iommuMap && FirstName(ix.iommuMap[k], id) == Some(NameForId(ix, order, id));
    FirstNameSource(ix.iommuMap[k], id);
    var r :| r in ix.iommuMap[k] && Hex4(r.deviceID) == id
        && NameForId(ix, order, id) == FormatDeviceName(r.deviceName);
    BucketMember(fd, devs, k, r);
    var i :| 0 <= i < |devs| && HasKey(fd, devs, i, k) && devs[i].Record() == r;
    assert devs[i].Eligible() && Hex4(devs[i].device) == id;
  }

  /** NVSwitch ids go by the NVSwitch alias, all others by the GPU alias; where theirs is unset, by their own name. */
  lemma PublishedAs(ix: Index, fd: bool, devs: seq<PciDevice>, aliases: Aliases, order: seq<string>, id: string)
    requires SpecifiedBy(ix, fd, devs) && IterationOf(order, ix.iommuMap.Keys) && id in ix.deviceMap
    ensures id in ix.nvSwitchDeviceIDs && aliases.nvSwitch != "" ==>
              PublishedName(ix, aliases, order, id) == aliases.nvSwitch
    ensures id !in ix.nvSwitchDeviceIDs && aliases.pgpu != "" ==> PublishedName(ix, aliases, order, id) == aliases.pgpu
    ensures (if id in ix.nvSwitchDeviceIDs then aliases.nvSwitch else aliases.pgpu) == "" ==>
              IsOwnName(devs, id, PublishedName(ix, aliases, order, id))
  {
    OwnName(ix, fd, devs, order, id);
  }
}
