/** The combined package list of a Linux host (packages/packages.go): upgradable packages,
    one entry a name, then the installed packages that are not upgradable. */
module CombinePackages {
  import opened FirstOrBetter
  import opened Lists

  datatype Package = Package(name: string, description: string, currentVersion: string,
                             availableVersion: string, sourceRepository: string,
                             needsUpdate: bool, isSecurityUpdate: bool)

  function Name(p: Package): string { p.name }

  predicate IsSecurity(p: Package) { p.isSecurityUpdate }

  /** An upgradable package with what only the installed list knows of it. */
  function Described(installed: map<string, Package>, p: Package): (r: Package)
    ensures r.name == p.name && r.isSecurityUpdate == p.isSecurityUpdate
  {
    if p.name !in installed then p
    else
      var i := installed[p.name];
      p.(description := if i.description != "" then i.description else p.description,
         sourceRepository := if p.sourceRepository == "" then i.sourceRepository else p.sourceRepository)
  }

  function DescribedAll(installed: map<string, Package>, ps: seq<Package>): (r: seq<Package>)
    ensures |r| == |ps| && forall k :: 0 <= k < |r| ==> r[k] == Described(installed, ps[k])
  {
    seq(|ps|, k requires 0 <= k < |ps| => Described(installed, ps[k]))
  }

  /** The entry of a package that is only installed. */
  function Plain(name: string, i: Package): Package {
    Package(name, i.description, i.currentVersion, "", i.sourceRepository, false, false)
  }

  /** The installed packages that are not upgradable, in the order the map is read. */
  function InstalledOnly(installed: map<string, Package>, order: seq<string>,
                         upgradable: seq<string>): seq<Package>
    requires forall n :: n in order ==> n in installed
  {
    if order == [] then []
    else
      var n := order[|order| - 1];
      assert forall m :: m in order[..|order| - 1] ==> m in order;
      InstalledOnly(installed, order[..|order| - 1], upgradable) +
      if n in upgradable then [] else [Plain(n, installed[n])]
  }

  /** An order in which a map may be read: each key once. */
  ghost predicate ReadsAll(order: seq<string>, installed: map<string, Package>) {
    && (forall n :: n in order <==> n in installed)
    && (forall i, j :: 0 <= i < j < |order| ==> order[i] != order[j])
  }

  function Upgradable(installed: map<string, Package>, ps: seq<Package>): seq<Package> {
    Picked(DescribedAll(installed, ps), Name, IsSecurity)
  }

  function Combined(installed: map<string, Package>, order: seq<string>, ps: seq<Package>): seq<Package>
    requires forall n :: n in order ==> n in installed
  {
    Upgradable(installed, ps) +
    InstalledOnly(installed, order, Names(DescribedAll(installed, ps), Name))
  }

  method CombinePackageData(installed: map<string, Package>, order: seq<string>, ps: seq<Package>)
    returns (packages: seq<Package>)
    requires ReadsAll(order, installed)
    ensures packages == Combined(installed, order, ps)
  {
    var upgradable;
    packages, upgradable := AddUpgradable(installed, ps);
    hide Picked, Names;
    ghost var names := Names(DescribedAll(installed, ps), Name);
    for k := 0 to |order|
      invariant packages == Upgradable(installed, ps) + InstalledOnly(installed, order[..k], names)
    {
      assert order[..k + 1][..k] == order[..k] && order[k] in order;
      if order[k] !in upgradable {
        packages := packages + [Plain(order[k], installed[order[k]])];
      }
    }
    assert order[..|order|] == order;
  }

  method AddUpgradable(installed: map<string, Package>, ps: seq<Package>)
    returns (packages: seq<Package>, upgradable: set<string>)
    ensures packages == Upgradable(installed, ps)
    ensures forall n :: n in upgradable <==> n in Names(DescribedAll(installed, ps), Name)
  {
    hide Picked, Names, Indexed;
    packages, upgradable := [], {};
    var index: map<string, nat> := map[];
    ghost var described := DescribedAll(installed, ps);
    NothingPicked(Name, IsSecurity);
    for k := 0 to |ps|
      invariant packages == Picked(described[..k], Name, IsSecurity)
      invariant Indexed(index, 0, Names(described[..k], Name)) && upgradable == index.Keys
    {
      ghost var names := Names(described[..k], Name);
      var p := Describe(installed, ps[k]);
      assert described[..k + 1] == described[..k] + [p];
      PickedAppend(described[..k], p, Name, IsSecurity);
      IndexedAt(index, 0, names, p.name);
      if p.name in index {
        var i := index[p.name];
        if p.isSecurityUpdate && !packages[i].isSecurityUpdate {
          packages := packages[i := p];
        }
        continue;
      }
      packages := packages + [p];
      IndexAppend(index, 0, names, p.name);
      index := index[p.name := |packages| - 1];
      upgradable := upgradable + {p.name};
    }
    assert described[..|ps|] == described;
    IndexedKeys(index, Names(described, Name));
  }

  lemma IndexedKeys(index: map<string, nat>, names: seq<string>)
    requires Indexed(index, 0, names)
    ensures forall n :: n in index.Keys <==> n in names
  {
  }

  method Describe(installed: map<string, Package>, pkg: Package) returns (p: Package)
    ensures p == Described(installed, pkg)
  {
    p := pkg;
    if p.name in installed {
      var i := installed[p.name];
      if i.description != "" {
        p := p.(description := i.description);
      }
      if p.sourceRepository == "" && i.sourceRepository != "" {
        p := p.(sourceRepository := i.sourceRepository);
      }
    }
  }

  // ----- what the list is

  /** What is read last joins the tail. */
  lemma {:induction false} InstalledOnlyIs(installed: map<string, Package>, order: seq<string>,
                                           names: seq<string>)
    requires forall n :: n in order ==> n in installed
    requires forall i, j :: 0 <= i < j < |order| ==> order[i] != order[j]
    ensures var r := InstalledOnly(installed, order, names);
            && (forall p :: p in r <==>
                  p.name in order && p.name !in names && p == Plain(p.name, installed[p.name]))
            && (forall i, j :: 0 <= i < j < |r| ==> r[i].name != r[j].name)
  {
    if order != [] {
      var init, n := order[..|order| - 1], order[|order| - 1];
      assert order == init + [n];
      InstalledOnlyIs(installed, init, names);
      var before := InstalledOnly(installed, init, names);
      forall i | 0 <= i < |before| ensures before[i].name != n {
        assert before[i] in before;
      }
    }
  }

  /** One entry for each name of the union. A name that is upgradable has its first
      security update, or else its first upgrade; any other has its installed entry. */
  lemma CombinedIsUnion(installed: map<string, Package>, order: seq<string>, ps: seq<Package>)
    requires ReadsAll(order, installed)
    ensures var r := Combined(installed, order, ps);
            && (forall i, j :: 0 <= i < j < |r| ==> r[i].name != r[j].name)
            && (forall n :: HasName(r, n) <==> n in installed || HasName(ps, n))
            && (forall i :: 0 <= i < |r| ==>
                  IsFirstUpgrade(installed, ps, r[i]) || IsOnlyInstalled(installed, ps, r[i]))
  {
    var d := DescribedAll(installed, ps);
    var u, names := Upgradable(installed, ps), Names(d, Name);
    var tail := InstalledOnly(installed, order, names);
    UpgradableIs(installed, ps);
    InstalledOnlyIs(installed, order, names);
    NamesAre(installed, ps);
    hide InstalledOnly, Picked, Names, DescribedAll, Upgradable, IsFirstUpgrade;
    var r := u + tail;
    forall i | 0 <= i < |tail| ensures tail[i].name in installed && IsOnlyInstalled(installed, ps, tail[i]) {
      assert tail[i] in tail;
    }
    forall i, j | 0 <= i < j < |r| ensures r[i].name != r[j].name {
      if i < |u| <= j {
        assert HasName(u, r[i].name);
      }
    }
    UnionNames(installed, order, ps);
  }

  predicate HasName(ps: seq<Package>, n: string) { exists k :: 0 <= k < |ps| && ps[k].name == n }

  /** The first security update of its name, or the first upgrade of a name without one. */
  ghost predicate IsChosen(ps: seq<Package>, p: nat)
    requires p < |ps|
  {
    forall q :: 0 <= q < |ps| && ps[q].name == ps[p].name ==>
      if ps[p].isSecurityUpdate then ps[q].isSecurityUpdate ==> p <= q
      else !ps[q].isSecurityUpdate && p <= q
  }

  /** The upgrade with the installed description, if there is one, and the installed
      package's source, if it has none itself. */
  predicate IsUpgrade(installed: map<string, Package>, u: Package, e: Package) {
    if u.name !in installed then e == u
    else
      && e.description == (if installed[u.name].description == "" then u.description
                           else installed[u.name].description)
      && e.sourceRepository == (if u.sourceRepository == "" then installed[u.name].sourceRepository
                                else u.sourceRepository)
      && e.(description := u.description, sourceRepository := u.sourceRepository) == u
  }

  ghost predicate IsFirstUpgrade(installed: map<string, Package>, ps: seq<Package>, e: Package) {
    exists p :: 0 <= p < |ps| && IsUpgrade(installed, ps[p], e) && IsChosen(ps, p)
  }

  /** No upgrade has the name, and the entry needs none. */
  predicate IsOnlyInstalled(installed: map<string, Package>, ps: seq<Package>, e: Package) {
    && !HasName(ps, e.name) && e.name in installed
    && e.description == installed[e.name].description && e.currentVersion == installed[e.name].currentVersion
    && e.sourceRepository == installed[e.name].sourceRepository
    && e.availableVersion == "" && !e.needsUpdate && !e.isSecurityUpdate
  }

  lemma UpgradableIs(installed: map<string, Package>, ps: seq<Package>)
    ensures var u := Upgradable(installed, ps);
            && (forall i, j :: 0 <= i < j < |u| ==> u[i].name != u[j].name)
            && (forall n :: HasName(u, n) <==> HasName(ps, n))
            && (forall i :: 0 <= i < |u| ==> IsFirstUpgrade(installed, ps, u[i]))
  {
    var d, u := DescribedAll(installed, ps), Upgradable(installed, ps);
    PickedIsBest(d, Name, IsSecurity);
    hide Picked, FirstBetter;
    forall i | 0 <= i < |u| ensures IsFirstUpgrade(installed, ps, u[i]) && HasName(ps, u[i].name) {
      var p :| 0 <= p < |d| && d[p] == u[i] && FirstBetter(d, Name, IsSecurity, p);
      DescribedKeepsFirst(installed, ps, p);
      assert ps[p].name == u[i].name;
    }
    forall n | HasName(ps, n) ensures HasName(u, n) {
      var k :| 0 <= k < |ps| && ps[k].name == n;
      assert d[k] in d;
      var i :| 0 <= i < |u| && Name(u[i]) == Name(d[k]);
    }
  }

  /** The names alone. */
  lemma UpgradableNames(installed: map<string, Package>, ps: seq<Package>)
    ensures forall n :: HasName(Upgradable(installed, ps), n) <==> HasName(ps, n)
  {
    UpgradableIs(installed, ps);
  }

  lemma DescribedKeepsFirst(installed: map<string, Package>, ps: seq<Package>, p: nat)
    requires p < |ps| && FirstBetter(DescribedAll(installed, ps), Name, IsSecurity, p)
    ensures IsChosen(ps, p) && IsUpgrade(installed, ps[p], DescribedAll(installed, ps)[p])
  {
    var d := DescribedAll(installed, ps);
    assert forall q :: 0 <= q < |ps| ==> Name(ps[q]) == Name(d[q]) && IsSecurity(ps[q]) == IsSecurity(d[q]);
  }

  lemma NamesAre(installed: map<string, Package>, ps: seq<Package>)
    ensures forall n :: n in Names(DescribedAll(installed, ps), Name) <==> HasName(ps, n)
  {
    var d := DescribedAll(installed, ps);
    NamesHaveEntries(d, Name);
    forall n | n in Names(d, Name) ensures HasName(ps, n) {
      var p := BestStands(d, Name, IsSecurity, n);
      assert ps[p].name == n;
    }
    forall k | 0 <= k < |ps| ensures ps[k].name in Names(d, Name) {
      assert Name(d[k]) in Names(d, Name);
    }
  }

  lemma UnionNames(installed: map<string, Package>, order: seq<string>, ps: seq<Package>)
    requires ReadsAll(order, installed)
    ensures forall n :: HasName(Combined(installed, order, ps), n) <==> n in installed || HasName(ps, n)
  {
    var u, names := Upgradable(installed, ps), Names(DescribedAll(installed, ps), Name);
    var tail := InstalledOnly(installed, order, names);
    UpgradableNames(installed, ps);
    InstalledOnlyIs(installed, order, names);
    NamesAre(installed, ps);
    hide InstalledOnly, Upgradable, Names, DescribedAll, HasName;
    forall n ensures HasName(u + tail, n) <==> n in installed || HasName(ps, n) {
      JoinedNames(u, tail, n);
      TailNames(installed, tail, n, HasName(ps, n));
    }
  }

  lemma JoinedNames(u: seq<Package>, tail: seq<Package>, n: string)
    ensures HasName(u + tail, n) <==> HasName(u, n) || HasName(tail, n)
  {
    var r := u + tail;
    assert forall k :: 0 <= k < |u| ==> r[k] == u[k];
    assert forall k :: 0 <= k < |tail| ==> r[|u| + k] == tail[k];
  }

  lemma TailNames(installed: map<string, Package>, tail: seq<Package>, n: string, upgradable: bool)
    requires forall p :: p in tail && p.name == n ==> n in installed && !upgradable
    requires n in installed && !upgradable ==> Plain(n, installed[n]) in tail
    ensures HasName(tail, n) <==> n in installed && !upgradable
  {
    if n in installed && !upgradable {
      var k :| 0 <= k < |tail| && tail[k] == Plain(n, installed[n]);
    }
  }

  /** The order in which the map is read shows only in the order of the installed tail. */
  lemma ReadingOrderOnlyMovesTail(installed: map<string, Package>, o1: seq<string>, o2: seq<string>,
                                  ps: seq<Package>)
    requires ReadsAll(o1, installed) && ReadsAll(o2, installed)
    ensures var u, a, b := Upgradable(installed, ps), Combined(installed, o1, ps), Combined(installed, o2, ps);
            |a| == |b| && u <= a && u <= b && multiset(a) == multiset(b)
  {
    var names := Names(DescribedAll(installed, ps), Name);
    InstalledOnlyIs(installed, o1, names);
    InstalledOnlyIs(installed, o2, names);
    hide InstalledOnly, Names, Upgradable;
    var s, t := InstalledOnly(installed, o1, names), InstalledOnly(installed, o2, names);
    assert forall x :: x in s <==> x in t;
    SameMembersSameCounts(s, t);
  }
}
