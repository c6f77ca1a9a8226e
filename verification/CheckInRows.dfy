/** The package and repository rows of a check-in (hashing/canonical.go, PackagesHash and
    ReposHash up to the encoding). nfc is the unknown text normalisation. */
module CheckInRows {
  import opened Keys
  import opened Text
  import opened StableSort
  import opened CanonicalRows

  /** A package as collected, and also its row, whose texts are normalised. */
  datatype Package = Package(name: string, description: string, category: string, currentVersion: string,
                             availableVersion: string, needsUpdate: bool, isSecurityUpdate: bool,
                             sourceRepository: string, wuaGuid: string, wuaKb: string, wuaSeverity: string,
                             wuaCategories: seq<string>, wuaSupportURL: string, wuaRevisionNumber: int,
                             wingetPinned: bool, wingetStoreApp: bool)

  function Normalised(ss: seq<string>, nfc: string -> string): (r: seq<string>)
    ensures |r| == |ss| && forall i :: 0 <= i < |r| ==> r[i] == nfc(ss[i])
  {
    seq(|ss|, i requires 0 <= i < |ss| => nfc(ss[i]))
  }

  /** Categories are sorted before they are normalised. */
  function PackageRow(p: Package, nfc: string -> string): Package {
    Package(nfc(p.name), nfc(p.description), nfc(p.category), nfc(p.currentVersion), nfc(p.availableVersion),
            p.needsUpdate, p.isSecurityUpdate, nfc(p.sourceRepository), nfc(p.wuaGuid), nfc(p.wuaKb),
            nfc(p.wuaSeverity), Normalised(SortedStrings(p.wuaCategories), nfc), nfc(p.wuaSupportURL),
            p.wuaRevisionNumber, p.wingetPinned, p.wingetStoreApp)
  }

  function AllPackageRows(pkgs: seq<Package>, nfc: string -> string): (r: seq<Package>)
    ensures |r| == |pkgs| && forall i :: 0 <= i < |r| ==> r[i] == PackageRow(pkgs[i], nfc)
  {
    seq(|pkgs|, i requires 0 <= i < |pkgs| => PackageRow(pkgs[i], nfc))
  }

  function PackageKey(row: Package): Key { [Codes(row.name)] }

  function PackageID(row: Package): string { row.name }

  /** The rows PackagesHash encodes. */
  ghost function PackageList(pkgs: seq<Package>, nfc: string -> string): seq<Package> {
    List(AllPackageRows(pkgs, nfc), PackageKey, PackageID)
  }

  method PackageRows(pkgs: seq<Package>, nfc: string -> string) returns (list: seq<Package>)
    ensures list == PackageList(pkgs, nfc)
  {
    hide Sort, PackageRow, Kept;
    var rows: seq<Row<Package>> := [];
    for i := 0 to |pkgs|
      invariant |rows| == i && forall k :: 0 <= k < i ==> rows[k] == Row(PackageKey(AllPackageRows(pkgs, nfc)[k]),
                                                                       AllPackageRows(pkgs, nfc)[k])
    {
      var row := PackageRow(pkgs[i], nfc);
      rows := rows + [Row(PackageKey(row), row)];
    }
    assert rows == Keyed(AllPackageRows(pkgs, nfc), PackageKey);
    rows := Sort(rows);
    rows := KeepLast(rows, PackageID);
    list := Values(rows);
  }

  lemma PackagesNeverClash(rows: seq<Package>)
    ensures NoClash(rows, PackageKey, PackageID)
  {
    forall i, j | 0 <= i < |rows| && 0 <= j < |rows|
      ensures rows[i].name == rows[j].name <==> PackageKey(rows[i]) == PackageKey(rows[j])
    {
      CodesInjective(rows[i].name, rows[j].name);
      assert PackageKey(rows[i])[0] == Codes(rows[i].name) && PackageKey(rows[j])[0] == Codes(rows[j].name);
    }
  }

  /** No later package has this package's normalised name. */
  ghost predicate LastOfName(pkgs: seq<Package>, nfc: string -> string, i: nat)
    requires i < |pkgs|
  {
    forall j :: i < j < |pkgs| ==> nfc(pkgs[j].name) != nfc(pkgs[i].name)
  }

  /** Names ascend strictly, and the rows are those of the last package of each name. */
  lemma {:induction false} PackageListIsLastPerName(pkgs: seq<Package>, nfc: string -> string)
    ensures var r := PackageList(pkgs, nfc);
            && (forall i, j :: 0 <= i < j < |r| ==> CompareStrings(r[i].name, r[j].name) < 0)
            && (forall v :: v in r <==>
                  exists i :: 0 <= i < |pkgs| && PackageRow(pkgs[i], nfc) == v && LastOfName(pkgs, nfc, i))
  {
    var rows, r := AllPackageRows(pkgs, nfc), PackageList(pkgs, nfc);
    PackagesNeverClash(rows);
    ListIsLastPerKey(rows, PackageKey, PackageID);
    hide List, NoClash;
    forall i | 0 <= i < |pkgs| ensures IsLastOfKey(rows, PackageKey, i) <==> LastOfName(pkgs, nfc, i) {
      LastByName(pkgs, nfc, i);
    }
    hide IsLastOfKey, LastOfName, PackageRow;
    forall v
      ensures v in r <==> exists i :: 0 <= i < |pkgs| && PackageRow(pkgs[i], nfc) == v && LastOfName(pkgs, nfc, i)
    {
      if i :| 0 <= i < |rows| && rows[i] == v && IsLastOfKey(rows, PackageKey, i) {
        assert PackageRow(pkgs[i], nfc) == v && LastOfName(pkgs, nfc, i);
      }
      if i :| 0 <= i < |pkgs| && PackageRow(pkgs[i], nfc) == v && LastOfName(pkgs, nfc, i) {
        assert rows[i] == v && IsLastOfKey(rows, PackageKey, i);
      }
    }
    forall i, j | 0 <= i < j < |r| ensures CompareStrings(r[i].name, r[j].name) < 0 {
      OneElement(Codes(r[i].name), Codes(r[j].name));
      assert CompareKeys(PackageKey(r[i]), PackageKey(r[j])) < 0;
    }
  }

  lemma LastByName(pkgs: seq<Package>, nfc: string -> string, i: nat)
    requires i < |pkgs|
    ensures IsLastOfKey(AllPackageRows(pkgs, nfc), PackageKey, i) <==> LastOfName(pkgs, nfc, i)
  {
    var rows := AllPackageRows(pkgs, nfc);
    PackagesNeverClash(rows);
    assert forall j :: 0 <= j < |pkgs| ==> PackageID(rows[j]) == nfc(pkgs[j].name);
  }

  /** Equal rows exactly for equal last packages of each name. */
  lemma PackageListIgnoresMixing(a: seq<Package>, b: seq<Package>, nfc: string -> string)
    ensures PackageList(a, nfc) == PackageList(b, nfc) <==>
            SameLastValues(AllPackageRows(a, nfc), AllPackageRows(b, nfc), PackageKey)
  {
    PackagesNeverClash(AllPackageRows(a, nfc));
    PackagesNeverClash(AllPackageRows(b, nfc));
    SameListIffSameLast(AllPackageRows(a, nfc), AllPackageRows(b, nfc), PackageKey, PackageID);
  }

  /** Nor does the order of a package's categories matter. */
  lemma CategoryOrderDoesNotMatter(p: Package, categories: seq<string>, nfc: string -> string)
    requires multiset(categories) == multiset(p.wuaCategories)
    ensures PackageRow(p.(wuaCategories := categories), nfc) == PackageRow(p, nfc)
  {
    SortedStringsForgetOrder(categories, p.wuaCategories);
  }

  // ----- what a row tells

  /** All fields agree, texts up to their normal form and categories up to their order. */
  ghost predicate SamePackage(p: Package, q: Package, nfc: string -> string) {
    && nfc(p.name) == nfc(q.name) && nfc(p.description) == nfc(q.description) && nfc(p.category) == nfc(q.category)
    && nfc(p.currentVersion) == nfc(q.currentVersion) && nfc(p.availableVersion) == nfc(q.availableVersion)
    && p.needsUpdate == q.needsUpdate && p.isSecurityUpdate == q.isSecurityUpdate
    && nfc(p.sourceRepository) == nfc(q.sourceRepository) && nfc(p.wuaGuid) == nfc(q.wuaGuid)
    && nfc(p.wuaKb) == nfc(q.wuaKb) && nfc(p.wuaSeverity) == nfc(q.wuaSeverity)
    && multiset(p.wuaCategories) == multiset(q.wuaCategories) && nfc(p.wuaSupportURL) == nfc(q.wuaSupportURL)
    && p.wuaRevisionNumber == q.wuaRevisionNumber && p.wingetPinned == q.wingetPinned
    && p.wingetStoreApp == q.wingetStoreApp
  }

  lemma {:induction false} SamePackageSameRow(p: Package, q: Package, nfc: string -> string)
    requires SamePackage(p, q, nfc)
    ensures PackageRow(p, nfc) == PackageRow(q, nfc)
  {
    SortedStringsForgetOrder(p.wuaCategories, q.wuaCategories);
    hide SortedStrings;
  }

  lemma {:induction false} SameRowSamePackage(p: Package, q: Package, nfc: string -> string)
    requires forall a, b :: nfc(a) == nfc(b) ==> a == b
    requires PackageRow(p, nfc) == PackageRow(q, nfc)
    ensures SamePackage(p, q, nfc)
  {
    var c, d := SortedStrings(p.wuaCategories), SortedStrings(q.wuaCategories);
    assert Normalised(c, nfc) == Normalised(d, nfc);
    NormalisedInjective(c, d, nfc);
    SortedStringsSort(p.wuaCategories);
    SortedStringsSort(q.wuaCategories);
    hide SortedStrings;
  }

  /** Equal packages have equal rows; when different texts have different normal forms,
      any change of a package changes its row. */
  lemma {:induction false} RowTellsPackage(p: Package, q: Package, nfc: string -> string)
    ensures SamePackage(p, q, nfc) ==> PackageRow(p, nfc) == PackageRow(q, nfc)
    ensures (forall a, b :: nfc(a) == nfc(b) ==> a == b) && PackageRow(p, nfc) == PackageRow(q, nfc) ==>
              SamePackage(p, q, nfc)
  {
    hide SamePackage, PackageRow;
    if SamePackage(p, q, nfc) {
      SamePackageSameRow(p, q, nfc);
    }
    if (forall a, b :: nfc(a) == nfc(b) ==> a == b) && PackageRow(p, nfc) == PackageRow(q, nfc) {
      SameRowSamePackage(p, q, nfc);
    }
  }

  lemma NormalisedInjective(a: seq<string>, b: seq<string>, nfc: string -> string)
    requires forall x, y :: nfc(x) == nfc(y) ==> x == y
    requires Normalised(a, nfc) == Normalised(b, nfc)
    ensures a == b
  {
    assert |a| == |b|;
    assert forall i :: 0 <= i < |a| ==> Normalised(a, nfc)[i] == Normalised(b, nfc)[i];
  }

  /** Where texts are in normal form already, the row is the package, categories sorted. */
  lemma RowIsPackage(p: Package)
    ensures PackageRow(p, (s: string) => s) == p.(wuaCategories := SortedStrings(p.wuaCategories))
  {
    hide SortedStrings;
    assert Normalised(SortedStrings(p.wuaCategories), (s: string) => s) == SortedStrings(p.wuaCategories);
  }

  ghost predicate SameRepository(r: Repository, s: Repository, nfc: string -> string) {
    && nfc(r.name) == nfc(s.name) && nfc(r.url) == nfc(s.url) && nfc(r.distribution) == nfc(s.distribution)
    && nfc(r.components) == nfc(s.components) && nfc(r.repoType) == nfc(s.repoType)
    && r.isEnabled == s.isEnabled && r.isSecure == s.isSecure
  }

  /** Rows are equal exactly when all fields agree, and the row of a repository whose texts
      are in normal form is that repository. */
  lemma {:induction false} RowTellsRepository(r: Repository, s: Repository, nfc: string -> string)
    ensures RepoRow(r, nfc) == RepoRow(s, nfc) <==> SameRepository(r, s, nfc)
    ensures RepoRow(r, (t: string) => t) == r
  {
  }

  // ----- repositories

  datatype Repository = Repository(name: string, url: string, distribution: string, components: string,
                                   repoType: string, isEnabled: bool, isSecure: bool)

  function RepoRow(r: Repository, nfc: string -> string): Repository {
    Repository(nfc(r.name), nfc(r.url), nfc(r.distribution), nfc(r.components), nfc(r.repoType),
               r.isEnabled, r.isSecure)
  }

  function AllRepoRows(repos: seq<Repository>, nfc: string -> string): (r: seq<Repository>)
    ensures |r| == |repos| && forall i :: 0 <= i < |r| ==> r[i] == RepoRow(repos[i], nfc)
  {
    seq(|repos|, i requires 0 <= i < |repos| => RepoRow(repos[i], nfc))
  }

  function RepoKey(row: Repository): Key { [Codes(row.url), Codes(row.distribution), Codes(row.components)] }

  function RepoID(row: Repository): string { row.url + "|" + row.distribution + "|" + row.components }

  /** The rows ReposHash encodes. */
  ghost function RepoList(repos: seq<Repository>, nfc: string -> string): seq<Repository> {
    List(AllRepoRows(repos, nfc), RepoKey, RepoID)
  }

  method RepoRows(repos: seq<Repository>, nfc: string -> string) returns (list: seq<Repository>)
    ensures list == RepoList(repos, nfc)
  {
    hide Sort, RepoRow, Kept;
    var rows: seq<Row<Repository>> := [];
    for i := 0 to |repos|
      invariant |rows| == i && forall k :: 0 <= k < i ==> rows[k] == Row(RepoKey(AllRepoRows(repos, nfc)[k]),
                                                                       AllRepoRows(repos, nfc)[k])
    {
      var row := RepoRow(repos[i], nfc);
      rows := rows + [Row(RepoKey(row), row)];
    }
    assert rows == Keyed(AllRepoRows(repos, nfc), RepoKey);
    rows := Sort(rows);
    rows := KeepLast(rows, RepoID);
    list := Values(rows);
  }

  predicate SamePlace(a: Repository, b: Repository) {
    a.url == b.url && a.distribution == b.distribution && a.components == b.components
  }

  lemma KeyIsPlace(a: Repository, b: Repository)
    ensures RepoKey(a) == RepoKey(b) <==> SamePlace(a, b)
  {
    CodesInjective(a.url, b.url);
    CodesInjective(a.distribution, b.distribution);
    CodesInjective(a.components, b.components);
    var x, y := RepoKey(a), RepoKey(b);
    assert x[0] == Codes(a.url) && x[1] == Codes(a.distribution) && x[2] == Codes(a.components);
    assert y[0] == Codes(b.url) && y[1] == Codes(b.distribution) && y[2] == Codes(b.components);
  }

  /** Rows of different places have different joined keys. */
  ghost predicate NoPlacesClash(rows: seq<Repository>) {
    forall i, j :: 0 <= i < |rows| && 0 <= j < |rows| && RepoID(rows[i]) == RepoID(rows[j]) ==>
      SamePlace(rows[i], rows[j])
  }

  lemma PlacesAreKeys(rows: seq<Repository>)
    ensures NoPlacesClash(rows) <==> NoClash(rows, RepoKey, RepoID)
  {
    forall i, j | 0 <= i < |rows| && 0 <= j < |rows|
      ensures RepoKey(rows[i]) == RepoKey(rows[j]) <==> SamePlace(rows[i], rows[j])
    {
      KeyIsPlace(rows[i], rows[j]);
    }
    hide RepoKey;
  }

  ghost predicate LastOfPlace(rows: seq<Repository>, i: nat)
    requires i < |rows|
  {
    forall j :: i < j < |rows| ==> !SamePlace(rows[j], rows[i])
  }

  lemma LastByPlace(rows: seq<Repository>, i: nat)
    requires i < |rows|
    ensures IsLastOfKey(rows, RepoKey, i) <==> LastOfPlace(rows, i)
  {
    forall j | 0 <= j < |rows| ensures RepoKey(rows[j]) == RepoKey(rows[i]) <==> SamePlace(rows[j], rows[i]) {
      KeyIsPlace(rows[j], rows[i]);
    }
    hide RepoKey;
  }

  /** The list holds the last row of every place exactly when no joined keys clash. */
  lemma RepoListIsCompleteIffNoClash(repos: seq<Repository>, nfc: string -> string)
    ensures var rows := AllRepoRows(repos, nfc);
            NoPlacesClash(rows) <==>
            forall i :: 0 <= i < |rows| && LastOfPlace(rows, i) ==> rows[i] in RepoList(repos, nfc)
  {
    var rows := AllRepoRows(repos, nfc);
    PlacesAreKeys(rows);
    forall i | 0 <= i < |rows| ensures IsLastOfKey(rows, RepoKey, i) <==> LastOfPlace(rows, i) {
      LastByPlace(rows, i);
    }
    hide NoPlacesClash, LastOfPlace, IsLastOfKey, List, NoClash;
    if NoPlacesClash(rows) {
      ListIsLastPerKey(rows, RepoKey, RepoID);
    } else if forall i :: 0 <= i < |rows| && LastOfPlace(rows, i) ==> rows[i] in RepoList(repos, nfc) {
      forall v: Repository, w: Repository | RepoKey(v) == RepoKey(w) ensures RepoID(v) == RepoID(w) {
        KeyIsPlace(v, w);
      }
      CompleteListHasNoClash(rows, RepoKey, RepoID);
    }
  }

  /** By URL, then distribution, then components. */
  predicate PlaceBefore(a: Repository, b: Repository) {
    if a.url != b.url then CompareStrings(a.url, b.url) < 0
    else if a.distribution != b.distribution then CompareStrings(a.distribution, b.distribution) < 0
    else CompareStrings(a.components, b.components) < 0
  }

  lemma {:induction false} KeysOrderPlaces(a: Repository, b: Repository)
    ensures CompareKeys(RepoKey(a), RepoKey(b)) < 0 <==> PlaceBefore(a, b)
  {
    CodesInjective(a.url, b.url);
    CodesInjective(a.distribution, b.distribution);
    CompareKeysHead(Codes(a.url), Codes(b.url), RepoKey(a)[1..], RepoKey(b)[1..]);
    CompareKeysHead(Codes(a.distribution), Codes(b.distribution), [Codes(a.components)], [Codes(b.components)]);
    assert RepoKey(a) == [Codes(a.url)] + RepoKey(a)[1..] && RepoKey(b) == [Codes(b.url)] + RepoKey(b)[1..];
    assert RepoKey(a)[1..] == [Codes(a.distribution)] + [Codes(a.components)];
    assert RepoKey(b)[1..] == [Codes(b.distribution)] + [Codes(b.components)];
    OneElement(Codes(a.components), Codes(b.components));
  }

  /** Without clashes: places ascend strictly, only last rows are listed, and two inputs
      give equal rows exactly when they agree on the last row of each place. */
  lemma RepoListIsLastPerPlace(a: seq<Repository>, b: seq<Repository>, nfc: string -> string)
    requires NoPlacesClash(AllRepoRows(a, nfc)) && NoPlacesClash(AllRepoRows(b, nfc))
    ensures var r := RepoList(a, nfc);
            forall i, j :: 0 <= i < j < |r| ==> PlaceBefore(r[i], r[j])
    ensures forall v :: v in RepoList(a, nfc) ==>
              exists i :: 0 <= i < |a| && RepoRow(a[i], nfc) == v && LastOfPlace(AllRepoRows(a, nfc), i)
    ensures RepoList(a, nfc) == RepoList(b, nfc) <==>
            SameLastValues(AllRepoRows(a, nfc), AllRepoRows(b, nfc), RepoKey)
  {
    var rows := AllRepoRows(a, nfc);
    PlacesAreKeys(rows);
    PlacesAreKeys(AllRepoRows(b, nfc));
    hide NoPlacesClash, List, NoClash, LastOfPlace, IsLastOfKey, RepoRow;
    ListIsLastPerKey(rows, RepoKey, RepoID);
    SameListIffSameLast(rows, AllRepoRows(b, nfc), RepoKey, RepoID);
    hide PlaceBefore, RepoKey;
    forall i, j | 0 <= i < j < |RepoList(a, nfc)| ensures PlaceBefore(RepoList(a, nfc)[i], RepoList(a, nfc)[j]) {
      KeysOrderPlaces(RepoList(a, nfc)[i], RepoList(a, nfc)[j]);
    }
    forall v | v in RepoList(a, nfc)
      ensures exists i :: 0 <= i < |a| && RepoRow(a[i], nfc) == v && LastOfPlace(rows, i)
    {
      var i :| 0 <= i < |rows| && rows[i] == v && IsLastOfKey(rows, RepoKey, i);
      LastByPlace(rows, i);
      assert RepoRow(a[i], nfc) == v;
    }
  }

  predicate IsBar(c: char) { c == '|' }

  predicate NoBar(s: string) { forall i :: 0 <= i < |s| ==> s[i] != '|' }

  lemma BarSplits(a: string, b: string, x: string, y: string)
    requires NoBar(a) && NoBar(b) && a + "|" + x == b + "|" + y
    ensures a == b && x == y
  {
    var s, t := a + "|" + x, b + "|" + y;
    IndexWhereIs(s, IsBar, |a|);
    IndexWhereIs(t, IsBar, |b|);
    assert a == s[..|a|] && b == t[..|b|] && x == s[|a| + 1..] && y == t[|b| + 1..];
  }

  /** URLs and distributions without a bar never clash. */
  lemma NoBarsNoClash(rows: seq<Repository>)
    requires forall i :: 0 <= i < |rows| ==> NoBar(rows[i].url) && NoBar(rows[i].distribution)
    ensures NoPlacesClash(rows)
  {
    forall i, j | 0 <= i < |rows| && 0 <= j < |rows| && RepoID(rows[i]) == RepoID(rows[j])
      ensures SamePlace(rows[i], rows[j])
    {
      var p, q := rows[i], rows[j];
      var x, y := p.distribution + "|" + p.components, q.distribution + "|" + q.components;
      assert p.url + "|" + x == RepoID(p) && q.url + "|" + y == RepoID(q);
      BarSplits(p.url, q.url, x, y);
      BarSplits(p.distribution, q.distribution, p.components, q.components);
    }
  }

  /** With a bar they can: two different repositories, one row. */
  lemma BarsClash()
    ensures var a := Repository("", "u|v", "w", "c", "", true, true);
            var b := Repository("", "u", "v|w", "c", "", true, true);
            !NoPlacesClash([a, b])
  {
    var a := Repository("", "u|v", "w", "c", "", true, true);
    var b := Repository("", "u", "v|w", "c", "", true, true);
    assert RepoID(a) == "u|v|w|c" == RepoID(b);
    assert [a, b][0] == a && [a, b][1] == b;
  }
}
