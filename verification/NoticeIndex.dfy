/** The dependency index of the third-party notices: collapsing the collected rows to one a package, and attributing
    each package to the module that contains it. */
module NoticeIndex {
  import opened Sequences
  import opened Text

  // ---------------------------------------------------------------- module lookup

  /** The package is the module or lies below it. */
  predicate Covers(mp: string, pkg: string) {
    pkg == mp || HasPrefix(pkg, mp + "/")
  }

  function Joined(parts: seq<string>, sep: string): string {
    if parts == [] then ""
    else if |parts| == 1 then parts[0]
    else Joined(parts[..|parts| - 1], sep) + sep + parts[|parts| - 1]
  }

  lemma {:induction false} JoinedAppend(a: seq<string>, b: seq<string>, sep: string)
    requires a != [] && b != []
    ensures Joined(a + b, sep) == Joined(a, sep) + sep + Joined(b, sep)
  {
    var init, last := b[..|b| - 1], b[|b| - 1];
    assert (a + b)[..|a + b| - 1] == a + init;
    if init == [] {
      assert a + init == a;
    } else {
      JoinedAppend(a, init, sep);
    }
  }

  /** Joining the segments of a text with their separator gives the text back. */
  lemma {:induction false} SplitJoined(s: string, sep: char)
    ensures Joined(Split(s, sep), [sep]) == s
  {
    if s != "" {
      var rest := Split(s[1..], sep);
      SplitJoined(s[1..], sep);
      if s[0] == sep {
        JoinedAppend([""], rest, [sep]);
      } else if |rest| > 1 {
        assert rest == [rest[0]] + rest[1..];
        JoinedAppend([rest[0]], rest[1..], [sep]);
        JoinedAppend([[s[0]] + rest[0]], rest[1..], [sep]);
      }
    }
  }

  lemma PrefixCovers(mp: string, rest: string)
    ensures Covers(mp, mp + "/" + rest)
  {}

  lemma JoinedCover(a: seq<string>, b: seq<string>)
    requires a != []
    ensures Covers(Joined(a, "/"), Joined(a + b, "/"))
  {
    if b == [] {
      assert a + b == a;
    } else {
      JoinedAppend(a, b, "/");
      PrefixCovers(Joined(a, "/"), Joined(b, "/"));
    }
  }

  lemma SegmentsCover(mp: string, pkg: string)
    requires Split(mp, '/') <= Split(pkg, '/')
    ensures Covers(mp, pkg)
  {
    var a, b := Split(mp, '/'), Split(pkg, '/');
    SplitJoined(mp, '/');
    SplitJoined(pkg, '/');
    assert b == a + b[|a|..];
    JoinedCover(a, b[|a|..]);
  }

  /** A module covers a package exactly when its path segments begin the package's. */
  lemma CoversIffSegments(mp: string, pkg: string)
    ensures Covers(mp, pkg) <==> Split(mp, '/') <= Split(pkg, '/')
  {
    if Covers(mp, pkg) && pkg != mp {
      var below := pkg[|mp| + 1..];
      assert pkg == mp + ['/'] + below;
      SplitAfter(mp, '/', below);
    }
    if Split(mp, '/') <= Split(pkg, '/') {
      SegmentsCover(mp, pkg);
    }
  }

  /** A longest module that covers the package; empty when only the empty path does, or none. */
  ghost predicate IsBest(best: string, pkg: string, mods: seq<string>) {
    && (best == "" || (best in mods && Covers(best, pkg)))
    && forall mp | mp in mods && Covers(mp, pkg) :: |mp| <= |best|
  }

  method BestModule(pkg: string, mods: seq<string>) returns (best: string)
    ensures IsBest(best, pkg, mods)
  {
    best := "";
    for i := 0 to |mods|
      invariant IsBest(best, pkg, mods[..i])
    {
      var mp := mods[i];
      assert forall x :: x in mods[..i + 1] <==> x in mods[..i] || x == mp;
      if Covers(mp, pkg) && |mp| > |best| {
        best := mp;
      }
    }
    assert mods[..|mods|] == mods;
  }

  /** The best module is unique and depends only on which modules are listed. */
  lemma BestUnique(pkg: string, mods: seq<string>, mods': seq<string>, best: string, best': string)
    requires SameElements(mods, mods') && IsBest(best, pkg, mods) && IsBest(best', pkg, mods')
    ensures best == best'
  {
    if best != "" && best' != "" {
      assert best == pkg[..|best|] && best' == pkg[..|best'|];
    }
  }

  /** One module line: the path it is imported by, and the path it is attributed to. */
  datatype ModuleLine = ModuleLine(path: string, shown: string)

  function Paths(lines: seq<ModuleLine>): (ps: seq<string>)
    ensures |ps| == |lines| && forall i | 0 <= i < |lines| :: ps[i] == lines[i].path
  {
    if lines == [] then [] else [lines[0].path] + Paths(lines[1..])
  }

  lemma PathsMember(lines: seq<ModuleLine>, p: string)
    ensures p in Paths(lines) <==> exists l | l in lines :: l.path == p
  {
    if p in Paths(lines) {
      var i :| 0 <= i < |lines| && Paths(lines)[i] == p;
      assert lines[i] in lines;
    }
    if l :| l in lines && l.path == p {
      var i :| 0 <= i < |lines| && lines[i] == l;
      assert Paths(lines)[i] == p;
    }
  }

  lemma PathsSame(lines: seq<ModuleLine>, lines': seq<ModuleLine>)
    requires SameElements(lines, lines')
    ensures SameElements(Paths(lines), Paths(lines'))
  {
    forall p ensures p in Paths(lines) <==> p in Paths(lines') {
      PathsMember(lines, p);
      PathsMember(lines', p);
    }
  }

  /** Each path is shown in one way. */
  ghost predicate ShownOnce(lines: seq<ModuleLine>) {
    forall l, l' | l in lines && l' in lines && l.path == l'.path :: l == l'
  }

  /** What the last line of a path shows. */
  function LastShown(lines: seq<ModuleLine>, path: string): string {
    if lines == [] then ""
    else if lines[|lines| - 1].path == path then lines[|lines| - 1].shown
    else LastShown(lines[..|lines| - 1], path)
  }

  lemma {:induction false} LastShownAt(lines: seq<ModuleLine>, i: nat)
    requires i < |lines|
    ensures exists j | 0 <= j < |lines| :: lines[j] == ModuleLine(lines[i].path, LastShown(lines, lines[i].path))
  {
    var n := |lines| - 1;
    if lines[n].path == lines[i].path {
      assert lines[n] == ModuleLine(lines[i].path, LastShown(lines, lines[i].path));
    } else {
      LastShownAt(lines[..n], i);
      var j :| 0 <= j < n && lines[..n][j] == ModuleLine(lines[i].path, LastShown(lines[..n], lines[i].path));
      assert lines[j] == lines[..n][j];
    }
  }

  lemma LastShownListed(lines: seq<ModuleLine>, path: string)
    requires path in Paths(lines)
    ensures ModuleLine(path, LastShown(lines, path)) in lines
  {
    var i :| 0 <= i < |lines| && Paths(lines)[i] == path;
    LastShownAt(lines, i);
  }

  /** `best` is a longest covering module, and `shown` what its last line shows; unknown where none covers. */
  ghost predicate IsAttribution(pkg: string, lines: seq<ModuleLine>, best: string, shown: string) {
    IsBest(best, pkg, Paths(lines)) && shown == if best == "" then "unknown" else LastShown(lines, best)
  }

  method Attribute(pkg: string, lines: seq<ModuleLine>) returns (best: string, shown: string)
    ensures IsAttribution(pkg, lines, best, shown)
  {
    var mods: seq<string> := [];
    var disp: map<string, string> := map[];
    for i := 0 to |lines|
      invariant mods == Paths(lines)[..i]
      invariant forall p :: p in disp <==> p in mods
      invariant forall p | p in disp :: disp[p] == LastShown(lines[..i], p)
    {
      assert lines[..i + 1][..i] == lines[..i];
      mods := mods + [lines[i].path];
      disp := disp[lines[i].path := lines[i].shown];
    }
    assert lines[..|lines|] == lines;
    best := BestModule(pkg, mods);
    shown := if best == "" then "unknown" else disp[best];
  }

  /** Reordering or repeating module lines never changes an attribution. */
  lemma AttributionCanonical(pkg: string, lines: seq<ModuleLine>, lines': seq<ModuleLine>, best: string, shown: string,
                             best': string, shown': string)
    requires SameElements(lines, lines') && ShownOnce(lines)
    requires IsAttribution(pkg, lines, best, shown) && IsAttribution(pkg, lines', best', shown')
    ensures best == best' && shown == shown'
  {
    PathsSame(lines, lines');
    BestUnique(pkg, Paths(lines), Paths(lines'), best, best');
    if best != "" {
      LastShownListed(lines, best);
      LastShownListed(lines', best);
    }
  }

  // ---------------------------------------------------------------- collapsing the rows

  /** Byte-wise lexicographic order. */
  predicate LexLess(a: string, b: string) {
    if a == "" then b != ""
    else b != "" && (a[0] < b[0] || (a[0] == b[0] && LexLess(a[1..], b[1..])))
  }

  lemma {:induction false} LexAsymmetric(a: string, b: string)
    ensures !(LexLess(a, b) && LexLess(b, a))
  {
    if a != "" && b != "" {
      LexAsymmetric(a[1..], b[1..]);
    }
  }

  /** a and b agree up to i, where a ends first or has the lesser character. */
  predicate LessFrom(a: string, b: string, i: nat) {
    i <= |a| && i < |b| && a[..i] == b[..i] && (i == |a| || a[i] < b[i])
  }

  lemma LessFromFirst(a: string, b: string, i: nat)
    requires 0 < i && LessFrom(a, b, i)
    ensures a[0] == b[0]
  {
    assert a[..i][0] == b[..i][0];
  }

  /** The order of the first difference, a text before its continuations. */
  lemma {:induction false} LexLessIff(a: string, b: string)
    ensures LexLess(a, b) <==> exists i | 0 <= i <= |a| :: LessFrom(a, b, i)
  {
    if a == "" || b == "" || a[0] != b[0] {
      assert b != "" && (a == "" || a[0] < b[0]) ==> LessFrom(a, b, 0);
      if i :| 0 < i <= |a| && LessFrom(a, b, i) {
        LessFromFirst(a, b, i);
        assert false;
      }
    } else {
      LexLessIff(a[1..], b[1..]);
      if i :| 0 <= i <= |a[1..]| && LessFrom(a[1..], b[1..], i) {
        assert a[..i + 1] == [a[0]] + a[1..][..i] && b[..i + 1] == [b[0]] + b[1..][..i];
        assert LessFrom(a, b, i + 1);
      }
      if i :| 0 <= i <= |a| && LessFrom(a, b, i) {
        assert i > 0;
        assert a[1..][..i - 1] == a[..i][1..] && b[1..][..i - 1] == b[..i][1..];
        assert LessFrom(a[1..], b[1..], i - 1);
      }
    }
  }

  function Lex(): (string, string) -> bool {
    (a, b) => LexLess(a, b)
  }

  /** sort -u in the C locale: the lines of the input, each once, in ascending order. */
  ghost predicate IsSortedSet(lines: seq<string>, sorted: seq<string>) {
    SameElements(lines, sorted) && Ascending(Lex(), sorted)
  }

  lemma SortedSetUnique(lines: seq<string>, lines': seq<string>, sorted: seq<string>, sorted': seq<string>)
    requires SameElements(lines, lines') && IsSortedSet(lines, sorted) && IsSortedSet(lines', sorted')
    ensures sorted == sorted'
  {
    forall i, j | 0 <= i < |sorted| && 0 <= j < |sorted|
      ensures !(Lex()(sorted[i], sorted[j]) && Lex()(sorted[j], sorted[i])) {
      LexAsymmetric(sorted[i], sorted[j]);
    }
    AscendingUnique(Lex(), sorted, sorted');
  }

  /** The n-th comma-separated field, empty when the line has fewer. */
  function Field(line: string, n: nat): string {
    if n < |Split(line, ',')| then Split(line, ',')[n] else ""
  }

  function Pkg(line: string): string { Field(line, 0) }

  function License(line: string): string { Field(line, 2) }

  /** The packages in order of first appearance. */
  function Packages(lines: seq<string>): seq<string> {
    if lines == [] then [] else
      var before, pkg := Packages(lines[..|lines| - 1]), Pkg(lines[|lines| - 1]);
      if pkg in before then before else before + [pkg]
  }

  /** The distinct licenses of a package in order of first appearance. */
  function Licenses(lines: seq<string>, pkg: string): seq<string> {
    if lines == [] then [] else
      var before, last := Licenses(lines[..|lines| - 1], pkg), lines[|lines| - 1];
      if Pkg(last) != pkg || License(last) in before then before else before + [License(last)]
  }

  /** The second field of the first line of a package. */
  function FirstUrl(lines: seq<string>, pkg: string): string {
    if lines == [] then ""
    else if pkg in Packages(lines[..|lines| - 1]) then FirstUrl(lines[..|lines| - 1], pkg)
    else Field(lines[|lines| - 1], 1)
  }

  function IndexLine(lines: seq<string>, pkg: string): string {
    pkg + "," + FirstUrl(lines, pkg) + "," + Joined(Licenses(lines, pkg), " / ")
  }

  /** One line a package. */
  ghost predicate IsIndexOf(sorted: seq<string>, index: seq<string>) {
    var pkgs := Packages(sorted);
    |index| == |pkgs| && forall i | 0 <= i < |pkgs| :: index[i] == IndexLine(sorted, pkgs[i])
  }

  lemma {:induction false} PackagesOnce(lines: seq<string>)
    ensures NoDup(Packages(lines))
    ensures forall pkg :: pkg in Packages(lines) <==> exists i | 0 <= i < |lines| :: Pkg(lines[i]) == pkg
  {
    if lines != [] {
      var init, last := lines[..|lines| - 1], lines[|lines| - 1];
      PackagesOnce(init);
      forall pkg ensures pkg in Packages(lines) <==> exists i | 0 <= i < |lines| :: Pkg(lines[i]) == pkg {
        assert pkg in Packages(lines) <==> pkg in Packages(init) || pkg == Pkg(last);
        if i :| 0 <= i < |lines| && Pkg(lines[i]) == pkg {
          assert i < |init| ==> Pkg(init[i]) == pkg;
        }
        if pkg in Packages(init) {
          var i :| 0 <= i < |init| && Pkg(init[i]) == pkg;
          assert Pkg(lines[i]) == pkg;
        }
      }
    }
  }

  lemma {:induction false} LicensesOnce(lines: seq<string>, pkg: string)
    ensures NoDup(Licenses(lines, pkg))
    ensures forall l :: l in Licenses(lines, pkg) <==>
              exists i | 0 <= i < |lines| :: Pkg(lines[i]) == pkg && License(lines[i]) == l
  {
    if lines != [] {
      var init, last := lines[..|lines| - 1], lines[|lines| - 1];
      LicensesOnce(init, pkg);
      forall l ensures l in Licenses(lines, pkg) <==>
               exists i | 0 <= i < |lines| :: Pkg(lines[i]) == pkg && License(lines[i]) == l {
        assert l in Licenses(lines, pkg) <==> l in Licenses(init, pkg) || (Pkg(last) == pkg && License(last) == l);
        if i :| 0 <= i < |lines| && Pkg(lines[i]) == pkg && License(lines[i]) == l {
          assert i < |init| ==> Pkg(init[i]) == pkg && License(init[i]) == l;
        }
        if l in Licenses(init, pkg) {
          var i :| 0 <= i < |init| && Pkg(init[i]) == pkg && License(init[i]) == l;
          assert Pkg(lines[i]) == pkg;
        }
      }
    }
  }

  /** The index depends only on the set of rows collected, not on their order or repetition. */
  lemma IndexCanonical(rows: seq<string>, rows': seq<string>, sorted: seq<string>, sorted': seq<string>,
                       index: seq<string>, index': seq<string>)
    requires SameElements(rows, rows') && IsSortedSet(rows, sorted) && IsSortedSet(rows', sorted')
    requires IsIndexOf(sorted, index) && IsIndexOf(sorted', index')
    ensures index == index'
  {
    SortedSetUnique(rows, rows', sorted, sorted');
  }

  /** Every package collected has one line, which lists each of its licenses exactly once. */
  lemma IndexComplete(rows: seq<string>, sorted: seq<string>, index: seq<string>, row: string) returns (n: nat)
    requires IsSortedSet(rows, sorted) && IsIndexOf(sorted, index) && row in rows
    ensures n < |index| == |Packages(sorted)| && Packages(sorted)[n] == Pkg(row)
            && index[n] == IndexLine(sorted, Pkg(row))
    ensures forall m | 0 <= m < |index| && m != n :: Packages(sorted)[m] != Pkg(row)
    ensures License(row) in Licenses(sorted, Pkg(row)) && NoDup(Licenses(sorted, Pkg(row)))
    ensures forall l | l in Licenses(sorted, Pkg(row)) :: exists r | r in rows :: Pkg(r) == Pkg(row) && License(r) == l
  {
    assert row in sorted;
    var i :| 0 <= i < |sorted| && sorted[i] == row;
    PackagesOnce(sorted);
    LicensesOnce(sorted, Pkg(row));
    assert Pkg(row) in Packages(sorted);
    n :| 0 <= n < |Packages(sorted)| && Packages(sorted)[n] == Pkg(row);
    forall l | l in Licenses(sorted, Pkg(row)) ensures exists r | r in rows :: Pkg(r) == Pkg(row) && License(r) == l {
      var j :| 0 <= j < |sorted| && Pkg(sorted[j]) == Pkg(row) && License(sorted[j]) == l;
      assert sorted[j] in sorted;
    }
  }

  // ---------------------------------------------------------------- the loop

  ghost predicate GatheredUrls(lines: seq<string>, url: map<string, string>, order: seq<string>) {
    && order == Packages(lines)
    && (forall p :: p in url <==> p in order)
    && (forall p | p in order :: url[p] == FirstUrl(lines, p))
  }

  ghost predicate GatheredSeen(lines: seq<string>, seen: set<(string, string)>) {
    forall p, l :: (p, l) in seen <==> l in Licenses(lines, p)
  }

  function LicensesBy(lines: seq<string>): string -> seq<string> {
    p => Licenses(lines, p)
  }

  /** Per package, how many licenses it has and how they read joined; a package without a license has no entry. */
  ghost predicate Tallied(licenses: string -> seq<string>, cnt: map<string, nat>, lic: map<string, string>) {
    forall p {:trigger licenses(p)} ::
      && (p in cnt <==> licenses(p) != []) && (p in lic <==> licenses(p) != [])
      && (licenses(p) != [] ==> cnt[p] == |licenses(p)| && lic[p] == Joined(licenses(p), " / "))
  }

  ghost predicate GatheredLicenses(lines: seq<string>, cnt: map<string, nat>, lic: map<string, string>) {
    Tallied(LicensesBy(lines), cnt, lic)
  }

  lemma JoinedSnoc(parts: seq<string>, part: string, sep: string)
    ensures Joined(parts + [part], sep) == if parts == [] then part else Joined(parts, sep) + sep + part
  {
    assert (parts + [part])[..|parts|] == parts;
  }

  lemma TallyStep(before: string -> seq<string>, after: string -> seq<string>, pkg: string, license: string,
                  cnt: map<string, nat>, lic: map<string, string>)
    requires Tallied(before, cnt, lic)
    requires forall p :: after(p) == if p == pkg then before(p) + [license] else before(p)
    ensures pkg in cnt <==> pkg in lic
    ensures Tallied(after, cnt[pkg := (if pkg in cnt then cnt[pkg] else 0) + 1],
                    lic[pkg := (if pkg in lic then lic[pkg] + " / " else "") + license])
  {
    JoinedSnoc(before(pkg), license, " / ");
    assert "" + license == license;
    assert pkg in cnt <==> before(pkg) != [];
  }

  lemma LinesSnoc(lines: seq<string>, line: string, p: string)
    ensures var all := lines + [line];
            && Packages(all) ==
                 (if Pkg(line) in Packages(lines) then Packages(lines) else Packages(lines) + [Pkg(line)])
            && FirstUrl(all, p) == (if p in Packages(lines) then FirstUrl(lines, p) else Field(line, 1))
            && Licenses(all, p) == (if Pkg(line) != p || License(line) in Licenses(lines, p) then Licenses(lines, p)
                                    else Licenses(lines, p) + [License(line)])
  {
    assert (lines + [line])[..|lines|] == lines;
  }

  lemma {:induction false} PackagesHaveLicenses(lines: seq<string>, p: string)
    ensures p in Packages(lines) <==> Licenses(lines, p) != []
  {
    if lines != [] {
      PackagesHaveLicenses(lines[..|lines| - 1], p);
    }
  }

  lemma UrlsSnoc(lines: seq<string>, line: string, pkg: string, url: string)
    requires pkg == Pkg(line) && url == Field(line, 1)
    ensures Packages(lines + [line]) == if pkg in Packages(lines) then Packages(lines) else Packages(lines) + [pkg]
    ensures forall p :: FirstUrl(lines + [line], p) == if p in Packages(lines) then FirstUrl(lines, p) else url
  {
    LinesSnoc(lines, line, pkg);
    forall p ensures FirstUrl(lines + [line], p) == if p in Packages(lines) then FirstUrl(lines, p) else url {
      LinesSnoc(lines, line, p);
    }
  }

  lemma UrlStep(lines: seq<string>, line: string, url: map<string, string>, order: seq<string>)
    requires GatheredUrls(lines, url, order)
    ensures if Pkg(line) in url then GatheredUrls(lines + [line], url, order)
            else GatheredUrls(lines + [line], url[Pkg(line) := Field(line, 1)], order + [Pkg(line)])
  {
    var pkg, link, all := Pkg(line), Field(line, 1), lines + [line];
    UrlsSnoc(lines, line, pkg, link);
    if pkg !in url {
      var url', order' := url[pkg := link], order + [pkg];
      assert order' == Packages(all);
      forall p ensures p in url' <==> p in order' {}
      forall p | p in order' ensures url'[p] == FirstUrl(all, p) {}
    }
  }

  lemma LicensesSnoc(lines: seq<string>, line: string, pkg: string, license: string)
    requires pkg == Pkg(line) && license == License(line)
    ensures forall p :: Licenses(lines + [line], p) ==
              if pkg != p || license in Licenses(lines, p) then Licenses(lines, p) else Licenses(lines, p) + [license]
  {
    forall p ensures Licenses(lines + [line], p) == if pkg != p || license in Licenses(lines, p) then Licenses(lines, p)
                                                    else Licenses(lines, p) + [license] {
      LinesSnoc(lines, line, p);
    }
  }

  lemma SeenStep(lines: seq<string>, line: string, pkg: string, license: string, seen: set<(string, string)>)
    requires pkg == Pkg(line) && license == License(line) && GatheredSeen(lines, seen)
    ensures GatheredSeen(lines + [line], if (pkg, license) in seen then seen else seen + {(pkg, license)})
  {
    LicensesSnoc(lines, line, pkg, license);
  }

  lemma RepeatStep(lines: seq<string>, line: string, pkg: string, license: string, cnt: map<string, nat>,
                   lic: map<string, string>)
    requires pkg == Pkg(line) && license == License(line) && license in Licenses(lines, pkg)
             && GatheredLicenses(lines, cnt, lic)
    ensures GatheredLicenses(lines + [line], cnt, lic)
  {
    LicensesSnoc(lines, line, pkg, license);
    assert forall p :: LicensesBy(lines + [line])(p) == LicensesBy(lines)(p);
  }

  lemma LicenseStep(lines: seq<string>, line: string, pkg: string, license: string, cnt: map<string, nat>,
                    lic: map<string, string>)
    requires pkg == Pkg(line) && license == License(line) && license !in Licenses(lines, pkg)
             && GatheredLicenses(lines, cnt, lic)
    ensures pkg in cnt ==> cnt[pkg] > 0
    ensures pkg in cnt <==> pkg in lic
    ensures GatheredLicenses(lines + [line], cnt[pkg := (if pkg in cnt then cnt[pkg] else 0) + 1],
                             lic[pkg := (if pkg in lic then lic[pkg] + " / " else "") + license])
  {
    LicensesSnoc(lines, line, pkg, license);
    TallyStep(LicensesBy(lines), LicensesBy(lines + [line]), pkg, license, cnt, lic);
    assert LicensesBy(lines)(pkg) == Licenses(lines, pkg);
  }

  method PrintIndex(ghost sorted: seq<string>, url: map<string, string>, order: seq<string>, lic: map<string, string>,
                    ghost cnt: map<string, nat>)
    returns (index: seq<string>)
    requires GatheredUrls(sorted, url, order) && GatheredLicenses(sorted, cnt, lic)
    ensures IsIndexOf(sorted, index)
  {
    index := [];
    for i := 0 to |order|
      invariant |index| == i && forall j | 0 <= j < i :: index[j] == IndexLine(sorted, order[j])
    {
      PackagesHaveLicenses(sorted, order[i]);
      assert LicensesBy(sorted)(order[i]) == Licenses(sorted, order[i]);
      index := index + [order[i] + "," + url[order[i]] + "," + lic[order[i]]];
    }
  }

  method CollapseIndex(sorted: seq<string>) returns (index: seq<string>)
    ensures IsIndexOf(sorted, index)
  {
    var url: map<string, string>, order: seq<string>, seen: set<(string, string)> := map[], [], {};
    var cnt: map<string, nat>, lic: map<string, string> := map[], map[];
    for i := 0 to |sorted|
      invariant GatheredUrls(sorted[..i], url, order)
      invariant GatheredSeen(sorted[..i], seen) && GatheredLicenses(sorted[..i], cnt, lic)
    {
      var pkg, license := Pkg(sorted[i]), License(sorted[i]);
      ghost var lines := sorted[..i];
      assert sorted[..i + 1] == lines + [sorted[i]];
      UrlStep(lines, sorted[i], url, order);
      SeenStep(lines, sorted[i], pkg, license, seen);
      if pkg !in url {
        url, order := url[pkg := Field(sorted[i], 1)], order + [pkg];
      }
      if (pkg, license) !in seen {
        LicenseStep(lines, sorted[i], pkg, license, cnt, lic);
        var before := if pkg in cnt then cnt[pkg] else 0;
        seen := seen + {(pkg, license)};
        lic := lic[pkg := (if before > 0 then lic[pkg] + " / " else "") + license];
        cnt := cnt[pkg := before + 1];
      } else {
        RepeatStep(lines, sorted[i], pkg, license, cnt, lic);
      }
    }
    assert sorted[..|sorted|] == sorted;
    index := PrintIndex(sorted, url, order, lic, cnt);
  }

  // ---------------------------------------------------------------- the order of packages and licenses

  /** The first line of the package is at position i. */
  ghost predicate FirstLine(lines: seq<string>, pkg: string, i: int) {
    0 <= i < |lines| && Pkg(lines[i]) == pkg && forall j | 0 <= j < i :: Pkg(lines[j]) != pkg
  }

  lemma FirstLineInit(init: seq<string>, last: string, pkg: string, i: int)
    ensures FirstLine(init, pkg, i) ==> FirstLine(init + [last], pkg, i)
    ensures FirstLine(init + [last], pkg, i) && i < |init| ==> FirstLine(init, pkg, i)
  {
    assert forall j | 0 <= j < |init| :: (init + [last])[j] == init[j];
  }

  /** Packages are listed in the order of their first lines. */
  lemma {:induction false} PackagesInOrder(lines: seq<string>, a: nat, b: nat, i: int, j: int)
    requires a < b < |Packages(lines)| && FirstLine(lines, Packages(lines)[a], i)
             && FirstLine(lines, Packages(lines)[b], j)
    ensures i < j
  {
    var init, last := lines[..|lines| - 1], lines[|lines| - 1];
    var earlier := Packages(init);
    assert lines == init + [last];
    PackagesOnce(init);
    assert earlier[a] in earlier;
    FirstLineInit(init, last, earlier[a], i);
    if b < |earlier| {
      assert earlier[b] in earlier;
      FirstLineInit(init, last, earlier[b], j);
      PackagesInOrder(init, a, b, i, j);
    }
  }

  /** The first line of the package with the license is at position i. */
  ghost predicate FirstWith(lines: seq<string>, pkg: string, license: string, i: int) {
    && 0 <= i < |lines| && Pkg(lines[i]) == pkg && License(lines[i]) == license
    && forall j | 0 <= j < i :: Pkg(lines[j]) != pkg || License(lines[j]) != license
  }

  lemma FirstWithInit(init: seq<string>, last: string, pkg: string, license: string, i: int)
    ensures FirstWith(init + [last], pkg, license, i) && i < |init| ==> FirstWith(init, pkg, license, i)
  {
    assert forall j | 0 <= j < |init| :: (init + [last])[j] == init[j];
  }

  /** And so are the licenses of a package. */
  lemma {:induction false} LicensesInOrder(lines: seq<string>, pkg: string, a: nat, b: nat, i: int, j: int)
    requires a < b < |Licenses(lines, pkg)|
    requires FirstWith(lines, pkg, Licenses(lines, pkg)[a], i) && FirstWith(lines, pkg, Licenses(lines, pkg)[b], j)
    ensures i < j
  {
    var init, last := lines[..|lines| - 1], lines[|lines| - 1];
    var earlier := Licenses(init, pkg);
    assert lines == init + [last];
    LicensesOnce(init, pkg);
    assert earlier[a] in earlier;
    FirstWithInit(init, last, pkg, earlier[a], i);
    if b < |earlier| {
      assert earlier[b] in earlier;
      FirstWithInit(init, last, pkg, earlier[b], j);
      LicensesInOrder(init, pkg, a, b, i, j);
    }
  }

  // ---------------------------------------------------------------- the index read back

  /** A collected row, by its fields. */
  datatype Record = Record(pkg: string, link: string, license: string)

  function RowOf(r: Record): string {
    r.pkg + "," + r.link + "," + r.license
  }

  function RowsOf(records: seq<Record>): (rows: seq<string>)
    ensures |rows| == |records| && forall i | 0 <= i < |rows| :: rows[i] == RowOf(records[i])
  {
    if records == [] then [] else [RowOf(records[0])] + RowsOf(records[1..])
  }

  /** The fields hold no separator. */
  predicate Separable(r: Record) {
    ',' !in r.pkg && ',' !in r.link && ',' !in r.license && '/' !in r.license
  }

  lemma SplitThree(a: string, b: string, c: string)
    requires ',' !in a && ',' !in b && ',' !in c
    ensures Split(a + "," + b + "," + c, ',') == [a, b, c]
  {
    SplitWithout(a, ',');
    SplitWithout(b, ',');
    SplitWithout(c, ',');
    SplitAfter(b, ',', c);
    SplitAfter(a, ',', b + [','] + c);
    assert a + "," + b + "," + c == a + [','] + (b + [','] + c);
  }

  lemma FieldsOfRow(r: Record)
    requires Separable(r)
    ensures Pkg(RowOf(r)) == r.pkg && Field(RowOf(r), 1) == r.link && License(RowOf(r)) == r.license
  {
    SplitThree(r.pkg, r.link, r.license);
  }

  /** The position of the first such character, or the length where there is none. */
  function IndexOf(s: string, c: char): (i: nat)
    ensures i <= |s| && (i < |s| ==> s[i] == c) && forall j | 0 <= j < i :: s[j] != c
  {
    if s == "" || s[0] == c then 0 else 1 + IndexOf(s[1..], c)
  }

  function WithoutLast(s: string, c: char): string {
    if s != "" && s[|s| - 1] == c then s[..|s| - 1] else s
  }

  function WithoutFirst(s: string, c: char): (r: string)
    ensures |r| <= |s|
  {
    if s != "" && s[0] == c then s[1..] else s
  }

  /** The licenses read back from between the slashes, each without the space next to a slash. */
  function ReadLicenses(joined: string): seq<string>
    decreases |joined|
  {
    var i := IndexOf(joined, '/');
    if i == |joined| then [joined]
    else [WithoutLast(joined[..i], ' ')] + ReadLicenses(WithoutFirst(joined[i + 1..], ' '))
  }

  lemma ReadFirstLicense(first: string, rest: string)
    requires '/' !in first
    ensures ReadLicenses(first + " / " + rest) == [first] + ReadLicenses(rest)
  {
    var s := first + " / " + rest;
    var i := IndexOf(s, '/');
    assert s[|first| + 1] == '/';
    assert forall j | 0 <= j < |first| :: s[j] == first[j] && first[j] in first;
    assert i == |first| + 1;
    assert s[..i] == first + " " && s[i + 1..] == " " + rest;
    assert WithoutLast(first + " ", ' ') == first && WithoutFirst(" " + rest, ' ') == rest;
  }

  lemma ReadOnlyLicense(license: string)
    requires '/' !in license
    ensures ReadLicenses(license) == [license]
  {
    assert forall j | 0 <= j < |license| :: license[j] in license;
  }

  /** Licenses without a slash are recovered from their printed form. */
  lemma {:induction false} LicensesReadBack(parts: seq<string>)
    requires parts != [] && forall i | 0 <= i < |parts| :: '/' !in parts[i]
    ensures ReadLicenses(Joined(parts, " / ")) == parts
  {
    if |parts| == 1 {
      ReadOnlyLicense(parts[0]);
    } else {
      var first, rest := parts[0], parts[1..];
      assert parts == [first] + rest;
      LicensesReadBack(rest);
      JoinedAppend([first], rest, " / ");
      ReadFirstLicense(first, Joined(rest, " / "));
    }
  }

  /** Some collected record has the package and the license. */
  ghost predicate Collected(records: seq<Record>, pkg: string, license: string) {
    exists r | r in records :: r.pkg == pkg && r.license == license
  }

  /** The link is that of the package's least row. */
  ghost predicate LeastLink(records: seq<Record>, pkg: string, link: string) {
    exists r | r in records ::
      && r.pkg == pkg && r.link == link
      && forall r' | r' in records && r'.pkg == pkg :: r' == r || !LexLess(RowOf(r'), RowOf(r))
  }

  /** The line has three fields: the package, its link, and its licenses, each once. */
  ghost predicate ReadsAs(records: seq<Record>, line: string, pkg: string) {
    var fields := Split(line, ',');
    && |fields| == 3 && fields[0] == pkg && LeastLink(records, pkg, fields[1])
    && NoDup(ReadLicenses(fields[2]))
    && forall license :: license in ReadLicenses(fields[2]) <==> Collected(records, pkg, license)
  }

  lemma RowsMember(records: seq<Record>, row: string)
    ensures row in RowsOf(records) <==> exists r | r in records :: RowOf(r) == row
  {
    if row in RowsOf(records) {
      var i :| 0 <= i < |records| && RowsOf(records)[i] == row;
      assert records[i] in records;
    }
    if r :| r in records && RowOf(r) == row {
      var i :| 0 <= i < |records| && records[i] == r;
      assert RowsOf(records)[i] == row;
    }
  }

  /** A line of the sorted index is a collected record. */
  lemma RecordOf(records: seq<Record>, sorted: seq<string>, i: nat) returns (r: Record)
    requires IsSortedSet(RowsOf(records), sorted) && (forall r | r in records :: Separable(r)) && i < |sorted|
    ensures r in records && sorted[i] == RowOf(r)
    ensures Pkg(sorted[i]) == r.pkg && Field(sorted[i], 1) == r.link && License(sorted[i]) == r.license
  {
    assert sorted[i] in sorted && sorted[i] in RowsOf(records);
    RowsMember(records, sorted[i]);
    r :| r in records && RowOf(r) == sorted[i];
    FieldsOfRow(r);
  }

  /** And every collected record is a line of it. */
  lemma PlaceOf(records: seq<Record>, sorted: seq<string>, r: Record) returns (i: nat)
    requires IsSortedSet(RowsOf(records), sorted) && (forall r | r in records :: Separable(r)) && r in records
    ensures i < |sorted| && sorted[i] == RowOf(r)
    ensures Pkg(sorted[i]) == r.pkg && Field(sorted[i], 1) == r.link && License(sorted[i]) == r.license
  {
    RowsMember(records, RowOf(r));
    assert RowOf(r) in sorted;
    i :| 0 <= i < |sorted| && sorted[i] == RowOf(r);
    FieldsOfRow(r);
  }

  lemma LicensesCollected(records: seq<Record>, sorted: seq<string>, pkg: string, license: string)
    requires IsSortedSet(RowsOf(records), sorted) && forall r | r in records :: Separable(r)
    ensures license in Licenses(sorted, pkg) <==> Collected(records, pkg, license)
    ensures license in Licenses(sorted, pkg) ==> '/' !in license && ',' !in license
  {
    LicensesOnce(sorted, pkg);
    if i :| 0 <= i < |sorted| && Pkg(sorted[i]) == pkg && License(sorted[i]) == license {
      var r := RecordOf(records, sorted, i);
    }
    if r :| r in records && r.pkg == pkg && r.license == license {
      var i := PlaceOf(records, sorted, r);
    }
  }

  /** The link printed is the second field of the package's first line. */
  lemma {:induction false} FirstUrlAt(lines: seq<string>, pkg: string, i: nat)
    requires FirstLine(lines, pkg, i)
    ensures FirstUrl(lines, pkg) == Field(lines[i], 1)
  {
    var init, last := lines[..|lines| - 1], lines[|lines| - 1];
    assert lines == init + [last];
    PackagesOnce(init);
    if i < |init| {
      FirstLineInit(init, last, pkg, i);
      assert Pkg(init[i]) == pkg;
      FirstUrlAt(init, pkg, i);
    } else {
      assert forall j | 0 <= j < |init| :: Pkg(init[j]) == Pkg(lines[j]);
    }
  }

  lemma {:induction false} FirstLineExists(lines: seq<string>, pkg: string, i: nat) returns (first: nat)
    requires i < |lines| && Pkg(lines[i]) == pkg
    ensures FirstLine(lines, pkg, first)
  {
    first := i;
    if j :| 0 <= j < i && Pkg(lines[j]) == pkg {
      first := FirstLineExists(lines, pkg, j);
    }
  }

  lemma {:induction false} LexIrreflexive(a: string)
    ensures !LexLess(a, a)
  {
    if a != "" {
      LexIrreflexive(a[1..]);
    }
  }

  lemma LinkCollected(records: seq<Record>, sorted: seq<string>, pkg: string)
    requires IsSortedSet(RowsOf(records), sorted) && (forall r | r in records :: Separable(r))
             && pkg in Packages(sorted)
    ensures LeastLink(records, pkg, FirstUrl(sorted, pkg))
  {
    PackagesOnce(sorted);
    var i :| 0 <= i < |sorted| && Pkg(sorted[i]) == pkg;
    var first := FirstLineExists(sorted, pkg, i);
    FirstUrlAt(sorted, pkg, first);
    var r := RecordOf(records, sorted, first);
    forall r' | r' in records && r'.pkg == pkg && r' != r ensures !LexLess(RowOf(r'), RowOf(r)) {
      var j := PlaceOf(records, sorted, r');
      if j > first {
        assert Lex()(sorted[first], sorted[j]);
      }
      LexAsymmetric(RowOf(r), RowOf(r'));
      LexIrreflexive(RowOf(r));
    }
  }

  lemma {:induction false} JoinedWithout(parts: seq<string>, sep: string, c: char)
    requires c !in sep && forall i | 0 <= i < |parts| :: c !in parts[i]
    ensures c !in Joined(parts, sep)
  {
    if |parts| > 1 {
      JoinedWithout(parts[..|parts| - 1], sep, c);
    }
  }

  /** Every printed line, split at its commas, gives back a package, the link of the package's least row, and exactly
      the licenses collected for it, each once. */
  lemma IndexReadsBack(records: seq<Record>, sorted: seq<string>, index: seq<string>, n: nat)
    requires IsSortedSet(RowsOf(records), sorted) && IsIndexOf(sorted, index) && n < |index|
    requires forall r | r in records :: Separable(r)
    ensures ReadsAs(records, index[n], Packages(sorted)[n])
  {
    var pkg := Packages(sorted)[n];
    var link, licenses := FirstUrl(sorted, pkg), Licenses(sorted, pkg);
    assert pkg in Packages(sorted);
    LinkCollected(records, sorted, pkg);
    LicensesOnce(sorted, pkg);
    PackagesHaveLicenses(sorted, pkg);
    forall license ensures license in licenses <==> Collected(records, pkg, license)
                   ensures license in licenses ==> '/' !in license && ',' !in license {
      LicensesCollected(records, sorted, pkg, license);
    }
    assert forall i | 0 <= i < |licenses| :: licenses[i] in licenses;
    LicensesReadBack(licenses);
    JoinedWithout(licenses, " / ", ',');
    SplitThree(pkg, link, Joined(licenses, " / "));
  }

  /** And every package collected is the first field of exactly one printed line. */
  lemma IndexOneLineEach(records: seq<Record>, sorted: seq<string>, index: seq<string>, r: Record) returns (n: nat)
    requires IsSortedSet(RowsOf(records), sorted) && IsIndexOf(sorted, index) && r in records
    requires forall r | r in records :: Separable(r)
    ensures n < |index| && Split(index[n], ',')[0] == r.pkg
    ensures forall m | 0 <= m < |index| && m != n :: Split(index[m], ',')[0] != r.pkg
  {
    var i := PlaceOf(records, sorted, r);
    PackagesOnce(sorted);
    assert Pkg(sorted[i]) in Packages(sorted);
    n :| 0 <= n < |Packages(sorted)| && Packages(sorted)[n] == r.pkg;
    IndexReadsBack(records, sorted, index, n);
    forall m | 0 <= m < |index| && m != n ensures Split(index[m], ',')[0] != r.pkg {
      IndexReadsBack(records, sorted, index, m);
    }
  }
}
